/** wwwroot/js/app.js: the two display helpers of the session page. */
module AppUi {

  function Max(a: int, b: int): int {
    if a < b then b else a
  }

  const Ellipsis: string := "..."

  /** truncateText: a text within the limit is shown whole; a longer one is cut to the
      limit (a negative limit cuts to nothing, as `substring` does) and marked "...". */
  function TruncateText(text: string, maxLength: int := 50): (r: string)
    ensures |text| <= maxLength ==> r == text
    ensures |text| > maxLength ==>
      && |r| == Max(maxLength, 0) + |Ellipsis|
      && r[|r| - |Ellipsis|..] == Ellipsis
      && r[..|r| - |Ellipsis|] == text[..Max(maxLength, 0)]
  {
    if |text| <= maxLength then text
    else
      var cut := text[..Max(maxLength, 0)];
      assert (cut + Ellipsis)[..|cut|] == cut;
      cut + Ellipsis
  }

  /** The shown text starts with as much of the text as fits the limit, is never longer
      than the limit plus the marker, and showing it again changes nothing. */
  lemma TruncateBoundedIdempotent(text: string, maxLength: int)
    ensures
      var k := if |text| <= maxLength then |text| else Max(maxLength, 0);
      text[..k] <= TruncateText(text, maxLength)
    ensures |TruncateText(text, maxLength)| <= Max(Max(maxLength, 0) + |Ellipsis|, |text|)
    ensures |text| > maxLength ==> |TruncateText(text, maxLength)| <= Max(maxLength, 0) + |Ellipsis|
    ensures TruncateText(TruncateText(text, maxLength), maxLength) == TruncateText(text, maxLength)
  {
    var r := TruncateText(text, maxLength);
    if |text| > maxLength {
      var r2 := TruncateText(r, maxLength);
      assert |r2| == |r|;
      assert r2[..|r2| - 3] == r[..Max(maxLength, 0)];
      assert r2 == r2[..|r2| - 3] + r2[|r2| - 3..];
      assert r == r[..|r| - 3] + r[|r| - 3..];
    }
  }

  /** With the default limit a 51-character text becomes its first 50 and "...". */
  lemma DefaultLimit(text: string)
    requires |text| > 50
    ensures |TruncateText(text)| == 53
    ensures TruncateText(text)[..50] == text[..50]
  {
  }

  // ---- the device icon ----

  /** `s.includes(sub)`, one position at a time. */
  predicate Includes(s: string, sub: string)
    decreases |s|
  {
    |sub| <= |s| && (s[..|sub|] == sub || Includes(s[1..], sub))
  }

  predicate OccursAt(s: string, sub: string, i: int) {
    0 <= i && i + |sub| <= |s| && s[i..i + |sub|] == sub
  }

  /** The recursive search agrees with "sub occurs at some position of s". */
  lemma {:induction false} IncludesIff(s: string, sub: string)
    ensures Includes(s, sub) <==> exists i :: OccursAt(s, sub, i)
    decreases |s|
  {
    if |sub| <= |s| && s == [] {
      assert OccursAt(s, sub, 0);
    } else if |sub| <= |s| {
      IncludesIff(s[1..], sub);
      if Includes(s, sub) {
        if s[..|sub|] == sub {
          assert OccursAt(s, sub, 0);
        } else {
          var i :| OccursAt(s[1..], sub, i);
          assert s[1..][i..i + |sub|] == s[i + 1..i + 1 + |sub|];
          assert OccursAt(s, sub, i + 1);
        }
      }
      if exists i :: OccursAt(s, sub, i) {
        var i :| OccursAt(s, sub, i);
        if i > 0 {
          assert s[1..][i - 1..i - 1 + |sub|] == s[i..i + |sub|];
          assert OccursAt(s[1..], sub, i - 1);
        }
      }
    }
  }

  const PhoneIcon: string := "\U{1F4F1}"
  const LaptopIcon: string := "\U{1F4BB}"
  const DesktopIcon: string := "\U{1F5A5}\U{FE0F}"

  predicate IsHandheld(userAgent: string) {
    Includes(userAgent, "Mobile") || Includes(userAgent, "Tablet")
  }

  predicate IsComputer(userAgent: string) {
    Includes(userAgent, "Windows") || Includes(userAgent, "Mac")
  }

  /** getDeviceIcon: a phone for "Mobile" or "Tablet", which win over the operating
      system; a laptop for "Windows" or "Mac"; a desktop for anything else. */
  function GetDeviceIcon(userAgent: string): (icon: string)
    ensures icon == PhoneIcon <==> IsHandheld(userAgent)
    ensures icon == LaptopIcon <==> !IsHandheld(userAgent) && IsComputer(userAgent)
    ensures icon == DesktopIcon <==> !IsHandheld(userAgent) && !IsComputer(userAgent)
  {
    if Includes(userAgent, "Mobile") then PhoneIcon
    else if Includes(userAgent, "Tablet") then PhoneIcon
    else if Includes(userAgent, "Windows") || Includes(userAgent, "Mac") then LaptopIcon
    else DesktopIcon
  }

  /** An occurrence survives wrapping the text in more text. */
  lemma {:induction false} IncludesExtend(pre: string, s: string, post: string, sub: string)
    requires Includes(s, sub)
    ensures Includes(pre + s + post, sub)
  {
    IncludesIff(s, sub);
    var i :| OccursAt(s, sub, i);
    var t := pre + s + post;
    assert t[|pre| + i..|pre| + i + |sub|] == s[i..i + |sub|];
    assert OccursAt(t, sub, |pre| + i);
    IncludesIff(t, sub);
  }

  /** Wrapping a user agent in more text never turns a phone into anything else. */
  lemma PhoneStaysPhone(pre: string, userAgent: string, post: string)
    requires GetDeviceIcon(userAgent) == PhoneIcon
    ensures GetDeviceIcon(pre + userAgent + post) == PhoneIcon
  {
    if Includes(userAgent, "Mobile") {
      IncludesExtend(pre, userAgent, post, "Mobile");
    } else {
      IncludesExtend(pre, userAgent, post, "Tablet");
    }
  }

  /** A Windows phone is shown as a phone: "Mobile" is tested first. */
  lemma WindowsPhoneIsPhone()
    ensures GetDeviceIcon("Windows Phone Mobile") == PhoneIcon
  {
    var ua := "Windows Phone Mobile";
    assert OccursAt(ua, "Mobile", 14);
    IncludesIff(ua, "Mobile");
  }
}
