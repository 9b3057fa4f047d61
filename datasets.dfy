/**
 * Preparation of the digit datasets of pi and e: the digits are extracted from
 * a downloaded page, the leading integer digit is dropped, and the first n
 * digits of the first mirror that yields at least n of them are kept.
 */
module Datasets {
  import opened Basics

  predicate IsDigit(c: char) { '0' <= c <= '9' }

  /** `"".join(re.findall(r"\d", text))`, for ASCII digits. */
  function ExtractDigits(text: string): (d: string)
    ensures |d| <= |text|
    ensures forall i :: 0 <= i < |d| ==> IsDigit(d[i])
  {
    if |text| == 0 then ""
    else ExtractDigits(text[..|text| - 1]) + (if IsDigit(text[|text| - 1]) then [text[|text| - 1]] else "")
  }

  /** `a` can be obtained from `b` by deleting characters. */
  predicate IsSubsequence(a: string, b: string)
    decreases |b|
  {
    |a| == 0 || (|b| > 0 && (if a[|a| - 1] == b[|b| - 1] then IsSubsequence(a[..|a| - 1], b[..|b| - 1]) else IsSubsequence(a, b[..|b| - 1])))
  }

  lemma {:induction false} SubsequenceOfSelf(a: string)
    ensures IsSubsequence(a, a)
  {
    if |a| > 0 {
      SubsequenceOfSelf(a[..|a| - 1]);
    }
  }

  /** The digits come out in their order in the text, and each character occurs in the
      output exactly as often as in the text if it is a digit, and never otherwise. */
  lemma ExtractDigitsFacts(text: string)
    ensures IsSubsequence(ExtractDigits(text), text)
    ensures forall c :: Occ(ExtractDigits(text), c) == if IsDigit(c) then Occ(text, c) else 0
  {
    ExtractDigitsInOrder(text);
    forall c ensures Occ(ExtractDigits(text), c) == if IsDigit(c) then Occ(text, c) else 0 {
      ExtractDigitsCount(text, c);
    }
  }

  lemma {:induction false} ExtractDigitsInOrder(text: string)
    ensures IsSubsequence(ExtractDigits(text), text)
  {
    if |text| > 0 {
      var p := text[..|text| - 1];
      var x := text[|text| - 1];
      ExtractDigitsInOrder(p);
      var d := ExtractDigits(p);
      if IsDigit(x) {
        assert ExtractDigits(text) == d + [x];
        assert ExtractDigits(text)[..|d|] == d;
      } else {
        assert ExtractDigits(text) == d;
        if |d| > 0 {
          assert d[|d| - 1] != x;
        }
      }
    }
  }

  lemma {:induction false} ExtractDigitsCount(text: string, c: char)
    ensures Occ(ExtractDigits(text), c) == if IsDigit(c) then Occ(text, c) else 0
  {
    if |text| > 0 {
      var p := text[..|text| - 1];
      var x := text[|text| - 1];
      assert text == p + [x];
      ExtractDigitsCount(p, c);
      var d := ExtractDigits(p);
      OccSnoc(p, x, c);
      if IsDigit(x) {
        assert ExtractDigits(text) == d + [x];
        OccSnoc(d, x, c);
      } else {
        assert ExtractDigits(text) == d;
      }
    }
  }

  /** Extracting twice changes nothing. */
  lemma {:induction false} ExtractDigitsIdempotent(text: string)
    ensures ExtractDigits(ExtractDigits(text)) == ExtractDigits(text)
  {
    AllDigitsFixed(ExtractDigits(text));
  }

  lemma {:induction false} AllDigitsFixed(d: string)
    requires forall i :: 0 <= i < |d| ==> IsDigit(d[i])
    ensures ExtractDigits(d) == d
  {
    if |d| > 0 {
      AllDigitsFixed(d[..|d| - 1]);
    }
  }

  /** `trim_leading_integer(digits, constant_name, keep_integer)`. */
  function TrimLeadingInteger(digits: string, constantName: string, keepInteger: bool): (t: string)
    ensures |digits| - 1 <= |t| <= |digits| && t == digits[|digits| - |t|..]
    ensures keepInteger ==> t == digits
  {
    if keepInteger || |digits| == 0 then digits
    else if constantName == "pi" && digits[0] == '3' then digits[1..]
    else if constantName == "e" && digits[0] == '2' then digits[1..]
    else digits
  }

  /** The first character is dropped exactly for "pi" with a leading 3 or "e" with a
      leading 2, unless the integer part is kept. */
  lemma TrimLeadingIntegerFacts(digits: string, constantName: string, keepInteger: bool)
    ensures var dropped := !keepInteger && |digits| > 0 &&
        ((constantName == "pi" && digits[0] == '3') || (constantName == "e" && digits[0] == '2'));
      TrimLeadingInteger(digits, constantName, keepInteger) == if dropped then digits[1..] else digits
  {
  }

  /** What one mirror contributes to `make_one`: its page (`None` when the download
      failed) gives `cleaned[:n]` if it holds a digit and at least n digits survive the
      trimming, and nothing otherwise. */
  function FromMirror(page: Option<string>, constantName: string, n: int, keepInteger: bool): Option<string>
  {
    match page
    case None => None
    case Some(raw) =>
      var all := ExtractDigits(raw);
      if |all| == 0 then None
      else
        var cleaned := TrimLeadingInteger(all, constantName, keepInteger);
        if |cleaned| < n then None else Some(Prefix(cleaned, n))
  }

  /** The first mirror, in order, that contributes. */
  function FirstMirror(pages: seq<Option<string>>, constantName: string, n: int, keepInteger: bool): Option<string>
  {
    if |pages| == 0 then None
    else if FromMirror(pages[0], constantName, n, keepInteger).Some? then FromMirror(pages[0], constantName, n, keepInteger)
    else FirstMirror(pages[1..], constantName, n, keepInteger)
  }

  /** The digits `make_one` writes: from the first contributing mirror, else from the
      offline text (no emptiness check there). `offline` is the text `fallback_offline`
      produces, `None` when it raises (mpmath missing, unknown constant). The result is
      `None` when the fallback raises or when the offline text has fewer than n usable
      digits (the `RuntimeError`). */
  function MakeOneDigits(pages: seq<Option<string>>, offline: Option<string>, constantName: string, n: int, keepInteger: bool): Option<string>
  {
    var mirrored := FirstMirror(pages, constantName, n, keepInteger);
    if mirrored.Some? then mirrored
    else if offline.None? then None
    else
      var cleaned := TrimLeadingInteger(ExtractDigits(offline.value), constantName, keepInteger);
      if |cleaned| < n then None else Some(Prefix(cleaned, n))
  }

  /** The selection in `make_one`, over pages already downloaded (the `offline` flag is
      an empty `pages`). */
  method SelectDigits(pages: seq<Option<string>>, offline: Option<string>, constantName: string, n: int, keepInteger: bool)
    returns (data: Option<string>)
    ensures data == MakeOneDigits(pages, offline, constantName, n, keepInteger)
  {
    data := None;
    var k := 0;
    while k < |pages|
      invariant 0 <= k <= |pages|
      invariant FirstMirror(pages, constantName, n, keepInteger) == FirstMirror(pages[k..], constantName, n, keepInteger)
    {
      MirrorStep(pages, k, constantName, n, keepInteger);
      if pages[k].None? {
        k := k + 1;
        continue;
      }
      var allDigits := ExtractDigits(pages[k].value);
      if |allDigits| == 0 {
        k := k + 1;
        continue;
      }
      var cleaned := TrimLeadingInteger(allDigits, constantName, keepInteger);
      if |cleaned| < n {
        k := k + 1;
        continue;
      }
      data := Some(Prefix(cleaned, n));
      return;
    }
    if offline.None? {
      return;
    }
    var cleaned := TrimLeadingInteger(ExtractDigits(offline.value), constantName, keepInteger);
    if |cleaned| >= n {
      data := Some(Prefix(cleaned, n));
    }
  }

  lemma MirrorStep(pages: seq<Option<string>>, k: nat, constantName: string, n: int, keepInteger: bool)
    requires k < |pages|
    ensures FirstMirror(pages[k..], constantName, n, keepInteger) ==
      if FromMirror(pages[k], constantName, n, keepInteger).Some? then FromMirror(pages[k], constantName, n, keepInteger)
      else FirstMirror(pages[k + 1..], constantName, n, keepInteger)
  {
    assert pages[k..][1..] == pages[k + 1..];
  }

  /** `d` is the beginning of the trimmed digits of `raw`, and made of digits only. */
  ghost predicate LeadsCleaned(d: string, raw: string, constantName: string, keepInteger: bool)
  {
    var cleaned := TrimLeadingInteger(ExtractDigits(raw), constantName, keepInteger);
    |d| <= |cleaned| && d == cleaned[..|d|] && forall i :: 0 <= i < |d| ==> IsDigit(d[i])
  }

  lemma CleanedAreDigits(raw: string, constantName: string, keepInteger: bool)
    ensures var cleaned := TrimLeadingInteger(ExtractDigits(raw), constantName, keepInteger);
      forall i :: 0 <= i < |cleaned| ==> IsDigit(cleaned[i])
  {
    var all := ExtractDigits(raw);
    var cleaned := TrimLeadingInteger(all, constantName, keepInteger);
    assert forall i :: 0 <= i < |cleaned| ==> cleaned[i] == all[|all| - |cleaned| + i];
  }

  /** A mirror's contribution for n >= 0 is exactly n digits leading its trimmed digits. */
  lemma {:induction false} FirstMirrorFacts(pages: seq<Option<string>>, constantName: string, n: int, keepInteger: bool)
    requires n >= 0
    requires FirstMirror(pages, constantName, n, keepInteger).Some?
    ensures |FirstMirror(pages, constantName, n, keepInteger).value| == n
    ensures var d := FirstMirror(pages, constantName, n, keepInteger).value;
      exists k :: 0 <= k < |pages| && pages[k].Some? && LeadsCleaned(d, pages[k].value, constantName, keepInteger)
  {
    if FromMirror(pages[0], constantName, n, keepInteger).Some? {
      CleanedAreDigits(pages[0].value, constantName, keepInteger);
      assert LeadsCleaned(FirstMirror(pages, constantName, n, keepInteger).value, pages[0].value, constantName, keepInteger);
    } else {
      FirstMirrorFacts(pages[1..], constantName, n, keepInteger);
      var d := FirstMirror(pages, constantName, n, keepInteger).value;
      var k :| 0 <= k < |pages[1..]| && pages[1..][k].Some? && LeadsCleaned(d, pages[1..][k].value, constantName, keepInteger);
      assert pages[1..][k] == pages[k + 1];
    }
  }

  /** Whatever `make_one` writes for n >= 0 has exactly n characters, all digits, and
      is the beginning of the trimmed digits of a mirror's page or of the offline text. */
  lemma SelectedLength(pages: seq<Option<string>>, offline: Option<string>, constantName: string, n: int, keepInteger: bool)
    requires n >= 0
    requires MakeOneDigits(pages, offline, constantName, n, keepInteger).Some?
    ensures var d := MakeOneDigits(pages, offline, constantName, n, keepInteger).value;
      |d| == n &&
      ((offline.Some? && LeadsCleaned(d, offline.value, constantName, keepInteger)) ||
       exists k :: 0 <= k < |pages| && pages[k].Some? && LeadsCleaned(d, pages[k].value, constantName, keepInteger))
  {
    if FirstMirror(pages, constantName, n, keepInteger).Some? {
      FirstMirrorFacts(pages, constantName, n, keepInteger);
    } else {
      CleanedAreDigits(offline.value, constantName, keepInteger);
    }
  }

  /** `make_one` fails exactly when no mirror contributes and the offline fallback either
      raises or yields fewer than n usable digits; for any n, a failing fallback with no
      contributing mirror is a failure. */
  lemma SelectionFails(pages: seq<Option<string>>, offline: Option<string>, constantName: string, n: int, keepInteger: bool)
    ensures MakeOneDigits(pages, offline, constantName, n, keepInteger).None? <==>
      FirstMirror(pages, constantName, n, keepInteger).None? &&
      (offline.None? || |TrimLeadingInteger(ExtractDigits(offline.value), constantName, keepInteger)| < n)
    ensures FirstMirror(pages, constantName, n, keepInteger).None? && offline.None? ==>
      MakeOneDigits(pages, offline, constantName, n, keepInteger).None?
  {
  }
}
