// The string operations the guardian app leans on: `trim`, decimal numerals and
// the de-duplicating list clean-up of `domain/namedTimes.ts`.

module JsText {
  import opened Seqs

  // White space and line terminators, as `String.prototype.trim` strips them.
  predicate IsBlank(c: char) {
    || '\t' <= c <= '\r' || c == ' '
    || c == '\U{A0}' || c == '\U{1680}' || '\U{2000}' <= c <= '\U{200A}'
    || c == '\U{2028}' || c == '\U{2029}' || c == '\U{202F}' || c == '\U{205F}'
    || c == '\U{3000}' || c == '\U{FEFF}'
  }

  function TrimLeft(s: string): (r: string)
    ensures |r| <= |s| && r == s[|s| - |r|..]
    ensures r != "" ==> !IsBlank(r[0])
  {
    if s != "" && IsBlank(s[0]) then TrimLeft(s[1..]) else s
  }

  function TrimRight(s: string): (r: string)
    ensures r <= s
    ensures r != "" ==> !IsBlank(r[|r| - 1])
  {
    if s != "" && IsBlank(s[|s| - 1]) then TrimRight(s[..|s| - 1]) else s
  }

  // Nothing to trim at either end.
  predicate Trimmed(s: string) {
    s != "" ==> !IsBlank(s[0]) && !IsBlank(s[|s| - 1])
  }

  function Trim(s: string): (r: string)
    ensures Trimmed(r)
    ensures Trimmed(s) ==> r == s
  {
    TrimRight(TrimLeft(s))
  }

  // Something is left after trimming.
  predicate HasInk(s: string) {
    exists i :: 0 <= i < |s| && !IsBlank(s[i])
  }

  lemma {:induction false} TrimLeftKeepsInk(s: string)
    ensures TrimLeft(s) != "" <==> HasInk(s)
  {
    if s != "" && IsBlank(s[0]) {
      TrimLeftKeepsInk(s[1..]);
      assert forall i :: 0 < i < |s| ==> s[i] == s[1..][i - 1];
      assert forall i :: 0 <= i < |s[1..]| ==> s[1..][i] == s[i + 1];
    }
  }

  lemma TrimKeepsInk(s: string)
    ensures Trim(s) != "" <==> HasInk(s)
  {
    TrimLeftKeepsInk(s);
    var t := TrimLeft(s);
    if t != "" { TrimRightKeepsInk(t); }
  }

  lemma {:induction false} TrimRightKeepsInk(s: string)
    requires s != "" && !IsBlank(s[0])
    ensures TrimRight(s) != ""
  {
    if IsBlank(s[|s| - 1]) {
      TrimRightKeepsInk(s[..|s| - 1]);
    }
  }

  // --- dedupe: trim, drop the blanks, keep first occurrences ------------------

  function NonBlankTrims(list: seq<string>): (r: seq<string>)
    ensures forall x :: x in r ==> x != "" && Trimmed(x)
    ensures forall s :: s in list && Trim(s) != "" ==> Trim(s) in r
  {
    if list == [] then []
    else
      var t := Trim(list[0]);
      (if t != "" then [t] else []) + NonBlankTrims(list[1..])
  }

  // Each listed entry is kept, trimmed, unless blank (and see DedupeSource).
  function Dedupe(list: seq<string>): (r: seq<string>)
    ensures Clean(r)
    ensures forall s :: s in list && Trim(s) != "" ==> Trim(s) in r
  {
    var kept := NonBlankTrims(list);
    var r := Distinct(kept);
    assert forall i :: 0 <= i < |r| ==> r[i] in kept;
    r
  }

  // A list `dedupe` leaves alone.
  predicate Clean(list: seq<string>) {
    NoDup(list) && forall i :: 0 <= i < |list| ==> list[i] != "" && Trimmed(list[i])
  }

  lemma {:induction false} NonBlankTrimsOfTrimmed(list: seq<string>)
    requires forall i :: 0 <= i < |list| ==> list[i] != "" && Trimmed(list[i])
    ensures NonBlankTrims(list) == list
  {
    if list != [] {
      assert Trim(list[0]) == list[0];
      NonBlankTrimsOfTrimmed(list[1..]);
    }
  }

  lemma DedupeOfClean(list: seq<string>)
    requires Clean(list)
    ensures Dedupe(list) == list
  {
    NonBlankTrimsOfTrimmed(list);
    DistinctOfNoDup(list);
  }

  // De-duplicating invents nothing: what it keeps is some entry, trimmed.
  lemma {:induction false} DedupeSource(list: seq<string>, x: string) returns (s: string)
    requires x in NonBlankTrims(list)
    ensures s in list && Trim(s) == x
  {
    if x == Trim(list[0]) {
      s := list[0];
    } else {
      s := DedupeSource(list[1..], x);
    }
  }

  // --- decimal numerals -------------------------------------------------------

  predicate IsDigit(c: char) { '0' <= c <= '9' }

  function Decimal(n: nat): (r: string)
    ensures r != "" && forall i :: 0 <= i < |r| ==> IsDigit(r[i])
  {
    if n < 10 then [DigitChar(n)] else Decimal(n / 10) + [DigitChar(n % 10)]
  }

  function DigitChar(d: nat): (c: char)
    requires d < 10
    ensures IsDigit(c) && c as int == '0' as int + d
  {
    ('0' as int + d) as char
  }

  // A numeral read digit by digit.
  function ValueOf(s: string): nat
    requires forall i :: 0 <= i < |s| ==> IsDigit(s[i])
  {
    if s == "" then 0
    else
      assert IsDigit(s[|s| - 1]);
      10 * ValueOf(s[..|s| - 1]) + (s[|s| - 1] as int - '0' as int)
  }

  lemma {:induction false} DecimalReads(n: nat)
    ensures ValueOf(Decimal(n)) == n && (n > 0 ==> Decimal(n)[0] != '0')
  {
    var s := Decimal(n);
    if n >= 10 {
      DecimalReads(n / 10);
      assert s[..|s| - 1] == Decimal(n / 10) && s[0] == Decimal(n / 10)[0];
    } else {
      assert s[..|s| - 1] == "";
    }
  }

  lemma {:induction false} DecimalInjective(m: nat, n: nat)
    requires Decimal(m) == Decimal(n)
    ensures m == n
    decreases m
  {
    var s := Decimal(m);
    assert s[|s| - 1] == DigitChar(m % 10) == DigitChar(n % 10);
    if m >= 10 && n >= 10 {
      assert Decimal(m / 10) == s[..|s| - 1] == Decimal(n / 10);
      DecimalInjective(m / 10, n / 10);
    }
  }

  // A hyphen cannot hide inside a numeral, so `<stem>-<n>` names its number.
  lemma NumberedSuffixInjective(p: string, m: nat, q: string, n: nat)
    requires p + "-" + Decimal(m) == q + "-" + Decimal(n)
    ensures p == q && m == n
  {
    var s := p + "-" + Decimal(m);
    assert s[|p|] == '-' && s[|q|] == (q + "-" + Decimal(n))[|q|] == '-';
    assert |p| == |q|;
    assert p == s[..|p|] == q;
    assert Decimal(m) == s[|p| + 1..] == Decimal(n);
    DecimalInjective(m, n);
  }

  // ... and read from the front, `<n>-<rest>` does too.
  lemma NumberedPrefixInjective(m: nat, a: string, n: nat, b: string)
    requires Decimal(m) + "-" + a == Decimal(n) + "-" + b
    ensures m == n && a == b
  {
    var s, t := Decimal(m) + "-" + a, Decimal(n) + "-" + b;
    var i, j := |Decimal(m)|, |Decimal(n)|;
    assert s[i] == '-' && t[j] == '-';
    assert i == j;
    assert Decimal(m) == s[..i] == Decimal(n);
    DecimalInjective(m, n);
    assert a == s[i + 1..] == b;
  }

  lemma {:induction false} DecimalLength(n: nat, bound: nat, digits: nat)
    requires digits >= 1 && n < bound && bound == Pow10(digits)
    ensures |Decimal(n)| <= digits
    decreases digits
  {
    if n >= 10 {
      assert digits >= 2;
      DecimalLength(n / 10, Pow10(digits - 1), digits - 1);
    }
  }

  function Pow10(k: nat): (r: nat)
    ensures r >= 1
  {
    if k == 0 then 1 else 10 * Pow10(k - 1)
  }
}
