// The three id allocators: `timeSlug` (domain/times.ts), `namedTimeSlug`
// (domain/namedTimes.ts) and `siteIdFor` (domain/siteClosure.ts). Each takes the
// label already lower-cased and finds the first id of its family nobody holds.

module Slugs {
  import opened Seqs
  import opened JsText
  import NamedTimes
  import WardSchedule

  // --- the slug of a label ----------------------------------------------------

  predicate SlugLetter(c: char) { 'a' <= c <= 'z' || '0' <= c <= '9' }

  predicate SlugChar(c: char) { SlugLetter(c) || c == '-' }

  predicate SlugText(s: string) { forall i :: 0 <= i < |s| ==> SlugChar(s[i]) }

  // replace(/[^a-z0-9]+/g, "-"): each run of other characters becomes one hyphen.
  function Collapse(s: string): (r: string)
    ensures SlugText(r)
    ensures forall i :: 0 <= i < |r| - 1 ==> r[i] != '-' || r[i + 1] != '-'
    ensures SlugText(s) && (forall i :: 0 <= i < |s| ==> SlugLetter(s[i])) ==> r == s
  {
    if s == "" then ""
    else
      var rest := Collapse(s[1..]);
      if SlugLetter(s[0]) then [s[0]] + rest
      else if rest != "" && rest[0] == '-' then rest
      else "-" + rest
  }

  // replace(/-+$/, "")
  function TrimHyphensRight(s: string): (r: string)
    ensures r <= s && (SlugText(s) ==> SlugText(r))
    ensures r != "" ==> r[|r| - 1] != '-'
    ensures s != "" && s[0] != '-' ==> r != ""
  {
    if s != "" && s[|s| - 1] == '-' then TrimHyphensRight(s[..|s| - 1]) else s
  }

  // replace(/^-+/, "")
  function TrimHyphensLeft(s: string): (r: string)
    ensures |r| <= |s| && r == s[|s| - |r|..]
    ensures r != "" ==> r[0] != '-'
  {
    if s != "" && s[0] == '-' then TrimHyphensLeft(s[1..]) else s
  }

  // At most one hyphen off each end: replace(/^-|-$/g, "").
  function TrimOneHyphen(s: string): (r: string)
    ensures |r| <= |s|
  {
    var t := if s != "" && s[0] == '-' then s[1..] else s;
    if t != "" && t[|t| - 1] == '-' then t[..|t| - 1] else t
  }

  function Slice(s: string, n: nat): (r: string)
    ensures r <= s && |r| <= n && (SlugText(s) ==> SlugText(r))
    ensures r != "" ==> r[0] == s[0]
    ensures s != "" && n > 0 ==> r != ""
  {
    if |s| > n then s[..n] else s
  }

  predicate NoHyphenEnds(s: string) { s != "" && s[0] != '-' && s[|s| - 1] != '-' }

  function Or(s: string, fallback: string): string { if s == "" then fallback else s }

  // Collapsed, with no hyphen at either end.
  function Core(lowered: string): (r: string)
    ensures SlugText(r) && (r != "" ==> NoHyphenEnds(r))
  {
    var left := TrimHyphensLeft(Collapse(lowered));
    var r := TrimHyphensRight(left);
    assert r != "" ==> r[0] == left[0];
    r
  }

  function TimeBase(lowered: string): (r: string)
    ensures SlugText(r) && 1 <= |r| <= 32 && NoHyphenEnds(r)
  {
    var cut := Slice(Core(lowered), 32);
    Or(TrimHyphensRight(cut), "time")
  }

  function NamedTimeBase(lowered: string): (r: string)
    ensures SlugText(r) && r != "" && r[0] != '-'
  {
    Or(TrimOneHyphen(Collapse(lowered)), "named-time")
  }

  function SiteBase(lowered: string): (r: string)
    ensures 1 <= |r| <= 32 && r[0] != '-'
  {
    var cut := Slice(Core(lowered), 32);
    Or(cut, "site")
  }

  // --- a base is the label's words ------------------------------------------------

  // The label's maximal runs of letters and digits, in order.
  function Words(s: string): (r: seq<string>)
    ensures forall i :: 0 <= i < |r| ==> r[i] != "" && forall k :: 0 <= k < |r[i]| ==> SlugLetter(r[i][k])
    ensures s != "" && SlugLetter(s[0]) ==> r != []
  {
    if s == "" then []
    else
      var rest := Words(s[1..]);
      if !SlugLetter(s[0]) then rest
      else if |s| > 1 && SlugLetter(s[1]) then [[s[0]] + rest[0]] + rest[1..]
      else [[s[0]]] + rest
  }

  function Joined(words: seq<string>): string {
    if words == [] then "" else if |words| == 1 then words[0] else words[0] + "-" + Joined(words[1..])
  }

  predicate LetterEnds(s: string) { s != "" && SlugLetter(s[0]) && SlugLetter(s[|s| - 1]) }

  lemma {:induction false} JoinedEndsInLetters(words: seq<string>)
    requires forall i :: 0 <= i < |words| ==> words[i] != "" && forall k :: 0 <= k < |words[i]| ==> SlugLetter(words[i][k])
    ensures words != [] ==> LetterEnds(Joined(words))
  {
    if |words| == 1 {
      assert words[0][|words[0]| - 1] == Joined(words)[|Joined(words)| - 1];
    } else if |words| > 1 {
      assert forall i :: 0 <= i < |words[1..]| ==> words[1..][i] == words[i + 1];
      JoinedEndsInLetters(words[1..]);
      var last := Joined(words[1..]);
      assert Joined(words)[|Joined(words)| - 1] == last[|last| - 1];
      assert Joined(words)[0] == words[0][0];
    }
  }

  // A hyphen before the words, if the label starts with something else, and after.
  function Lead(s: string): string { if s != "" && !SlugLetter(s[0]) then "-" else "" }

  function Trail(s: string): string { if Words(s) != [] && !SlugLetter(s[|s| - 1]) then "-" else "" }

  lemma CollapseStep(s: string)
    requires s != ""
    ensures var rest := s[1..];
      && Collapse(s) == (if SlugLetter(s[0]) then [s[0]] + Collapse(rest)
                         else if rest != "" && !SlugLetter(rest[0]) then Collapse(rest)
                         else "-" + Collapse(rest))
  {
    var rest := s[1..];
    if rest != "" { assert Collapse(rest) != "" && (Collapse(rest)[0] == '-' <==> !SlugLetter(rest[0])); }
  }

  lemma WordsStep(s: string)
    requires s != ""
    ensures var rest := s[1..];
      Joined(Words(s)) == if !SlugLetter(s[0]) then Joined(Words(rest))
                          else if Words(rest) == [] then [s[0]]
                          else [s[0]] + (Lead(rest) + Joined(Words(rest)))
  {
    var c, rest := s[0], s[1..];
    if rest != "" { assert rest[0] == s[1]; }
    if SlugLetter(c) && rest != "" && SlugLetter(rest[0]) {
      FirstWordGrows(c, Words(rest));
    } else if SlugLetter(c) {
      NewWord(c, Words(rest));
    }
  }

  lemma TrailStep(s: string)
    requires s != ""
    ensures var rest := s[1..];
      Trail(s) == if SlugLetter(s[0]) && Words(rest) == [] && rest != "" then "-" else Trail(rest)
  {
    var rest := s[1..];
    if rest != "" {
      assert rest[|rest| - 1] == s[|s| - 1];
      if Words(rest) == [] { NoWordsNoLetters(rest, |rest| - 1); }
    }
  }

  lemma {:induction false} NoWordsNoLetters(s: string, k: nat)
    requires Words(s) == [] && k < |s|
    ensures !SlugLetter(s[k])
  {
    if k > 0 { NoWordsNoLetters(s[1..], k - 1); }
  }

  // One character more in front of a text whose collapse is known.
  lemma GlueOther(out: string, all: string, lead: string, joined: string, trail: string)
    requires all == lead + joined + trail && (lead == "" || lead == "-")
    requires out == if lead == "-" then all else "-" + all
    ensures out == "-" + joined + trail
  {
    if lead == "" {
      assert lead + joined == joined;
      assert "-" + (joined + trail) == "-" + joined + trail;
    }
  }

  lemma GlueLetter(c: string, all: string, lead: string, joined: string, trail: string)
    requires all == lead + joined + trail
    ensures c + all == "" + (c + (lead + joined)) + trail
    ensures joined == "" && trail == "" ==> c + all == "" + c + lead
  {
    if joined == "" && trail == "" { assert all == lead; }
  }

  lemma {:induction false} CollapseIsWords(s: string)
    ensures Collapse(s) == Lead(s) + Joined(Words(s)) + Trail(s)
  {
    if s != "" {
      var rest := s[1..];
      var lead, joined, trail, all := Lead(rest), Joined(Words(rest)), Trail(rest), Collapse(rest);
      CollapseIsWords(rest);
      CollapseStep(s);
      WordsStep(s);
      TrailStep(s);
      if SlugLetter(s[0]) { GlueLetter([s[0]], all, lead, joined, trail); }
      else { GlueOther(Collapse(s), all, lead, joined, trail); }
    }
  }

  lemma FirstWordGrows(c: char, words: seq<string>)
    requires words != []
    ensures Joined([[c] + words[0]] + words[1..]) == [c] + Joined(words)
  {
    var grown := [[c] + words[0]] + words[1..];
    assert grown[1..] == words[1..];
  }

  lemma NewWord(c: char, words: seq<string>)
    ensures Joined([[c]] + words) == if words == [] then [c] else [c] + "-" + Joined(words)
  {
    assert ([[c]] + words)[1..] == words;
  }

  // Whatever the hyphens around it, the middle is left.
  lemma HyphensOff(all: string, lead: string, right: string, mid: string, trail: string)
    requires LetterEnds(mid) && (lead == "" || lead == "-") && (trail == "" || trail == "-")
    requires all == lead + right && right == mid + trail
    ensures TrimHyphensRight(TrimHyphensLeft(all)) == mid
  {
    assert right[0] == mid[0];
    LeadOff(lead, right);
    TrailOff(mid, trail);
  }

  lemma OneHyphenOff(all: string, lead: string, right: string, mid: string, trail: string)
    requires LetterEnds(mid) && (lead == "" || lead == "-") && (trail == "" || trail == "-")
    requires all == lead + right && right == mid + trail
    ensures TrimOneHyphen(all) == mid
  {
    assert all[|lead|..] == right && right[..|mid|] == mid;
    assert all[0] == '-' <==> |lead| == 1;
    assert right[|right| - 1] == '-' <==> |trail| == 1;
  }

  lemma LeadOff(lead: string, right: string)
    requires right != "" && right[0] != '-' && (lead == "" || lead == "-")
    ensures TrimHyphensLeft(lead + right) == right
  {
    if lead == "-" { assert (lead + right)[1..] == right; } else { assert lead + right == right; }
  }

  lemma TrailOff(mid: string, trail: string)
    requires LetterEnds(mid) && (trail == "" || trail == "-")
    ensures TrimHyphensRight(mid + trail) == mid
  {
    assert TrimHyphensRight(mid) == mid;
    if trail == "-" { assert (mid + trail)[..|mid|] == mid; } else { assert mid + trail == mid; }
  }

  lemma AroundTheWords(all: string, lead: string, mid: string, trail: string)
    requires LetterEnds(mid) && (lead == "" || lead == "-") && (trail == "" || trail == "-")
    requires all == lead + mid + trail
    ensures TrimHyphensRight(TrimHyphensLeft(all)) == mid == TrimOneHyphen(all)
  {
    assert lead + mid + trail == lead + (mid + trail);
    HyphensOff(all, lead, mid + trail, mid, trail);
    OneHyphenOff(all, lead, mid + trail, mid, trail);
  }

  lemma NoWordsLeft(all: string)
    requires |all| <= 1 && (|all| == 1 ==> all[0] == '-')
    ensures |TrimHyphensRight(TrimHyphensLeft(all))| == 0 && |TrimOneHyphen(all)| == 0
  {
    if |all| == 1 {
      var rest := all[1..];
      assert TrimHyphensLeft(all) == TrimHyphensLeft(rest) == rest;
    }
  }

  lemma WordsSurvive(s: string)
    ensures Core(s) == Joined(Words(s)) == TrimOneHyphen(Collapse(s))
  {
    var lead, mid, trail := Lead(s), Joined(Words(s)), Trail(s);
    CollapseIsWords(s);
    JoinedEndsInLetters(Words(s));
    if Words(s) != [] { AroundTheWords(Collapse(s), lead, mid, trail); }
    else {
      assert Collapse(s) == lead + mid + trail == lead;
      NoWordsLeft(Collapse(s));
    }
  }

  function First(s: string, n: nat): string { if |s| > n then s[..n] else s }

  // The base of each kind of id: the label's words joined by single hyphens, cut to 32
  // characters for a time or a site, a cut hyphen dropped for a time; a fixed word when
  // the label has none.
  lemma BasesAreTheWords(lowered: string)
    ensures var joined := Joined(Words(lowered));
      && NamedTimeBase(lowered) == (if joined == "" then "named-time" else joined)
      && SiteBase(lowered) == (if joined == "" then "site" else First(joined, 32))
      && TimeBase(lowered) == (if joined == "" then "time" else WithoutCutHyphen(First(joined, 32)))
  {
    WordsSurvive(lowered);
    if Words(lowered) != [] { TimeBaseOfCore(lowered); }
  }

  lemma TimeBaseOfCore(lowered: string)
    requires Words(lowered) != []
    ensures Core(lowered) != "" && TimeBase(lowered) == WithoutCutHyphen(First(Core(lowered), 32))
  {
    WordsSurvive(lowered);
    SingleHyphens(lowered);
    JoinedEndsInLetters(Words(lowered));
    CutBase(Core(lowered));
  }

  lemma CutBase(core: string)
    requires core != "" && core[0] != '-' && forall i :: 0 <= i < |core| - 1 ==> core[i] != '-' || core[i + 1] != '-'
    ensures Or(TrimHyphensRight(Slice(core, 32)), "time") == WithoutCutHyphen(First(core, 32))
  {
    OneHyphenToTrim(First(core, 32));
  }

  function WithoutCutHyphen(s: string): string {
    if s != "" && s[|s| - 1] == '-' then s[..|s| - 1] else s
  }

  lemma NothingToTrim(s: string)
    requires s == "" || s[|s| - 1] != '-'
    ensures TrimHyphensRight(s) == s
  {
  }

  lemma OneHyphenToTrim(s: string)
    requires forall i :: 0 <= i < |s| - 1 ==> s[i] != '-' || s[i + 1] != '-'
    ensures TrimHyphensRight(s) == WithoutCutHyphen(s)
  {
    var n := |s|;
    if n == 0 || s[n - 1] != '-' {
      NothingToTrim(s);
    } else {
      assert n > 1 ==> s[n - 2] != '-';
      NothingToTrim(s[..n - 1]);
    }
  }

  lemma SingleHyphens(lowered: string)
    ensures var j := Joined(Words(lowered)); forall i :: 0 <= i < |j| - 1 ==> j[i] != '-' || j[i + 1] != '-'
  {
    var j, c, n := Joined(Words(lowered)), Collapse(lowered), |Lead(lowered)|;
    CollapseIsWords(lowered);
    assert forall i :: 0 <= i < |j| ==> j[i] == c[n + i];
  }

  // A well-formed id of at most 32 characters, single hyphens inside, is its own base.
  lemma WellFormedIsItsBase(s: string)
    requires SlugText(s) && NoHyphenEnds(s) && forall i :: 0 <= i < |s| - 1 ==> s[i] != '-' || s[i + 1] != '-'
    ensures NamedTimeBase(s) == s
    ensures |s| <= 32 ==> TimeBase(s) == s && SiteBase(s) == s
  {
    CollapseKeepsSlugs(s);
    assert TrimHyphensLeft(s) == s && TrimHyphensRight(s) == s;
  }

  // --- the families of candidates ----------------------------------------------

  function Suffix(n: nat): string { "-" + Decimal(n) }

  // As much of the base as leaves room for the suffix.
  function TimeStem(base: string, room: nat): (r: string)
    ensures |r| <= room && (SlugText(base) ==> SlugText(r))
    ensures base != "" && base[0] != '-' && room > 0 ==> r != "" && r[0] != '-'
  {
    var cut := Slice(base, room);
    TrimHyphensRight(cut)
  }

  function TimeCandidate(base: string, n: nat): string {
    TimeStem(base, if |Suffix(n)| < 32 then 32 - |Suffix(n)| else 0) + Suffix(n)
  }

  function NamedTimeCandidate(base: string, n: nat): string { Slice(base, 36) + Suffix(n) }

  function SiteCandidate(base: string, n: nat): string { base + Suffix(n) }

  lemma SuffixNamesItsNumber(p: string, m: nat, q: string, n: nat)
    requires p + Suffix(m) == q + Suffix(n)
    ensures m == n
  {
    assert p + Suffix(m) == p + "-" + Decimal(m);
    assert q + Suffix(n) == q + "-" + Decimal(n);
    NumberedSuffixInjective(p, m, q, n);
  }

  lemma ShortSuffix(n: nat)
    requires n < 10_000_000_000
    ensures |Suffix(n)| <= 11
  {
    assert Pow10(3) == 1000 && Pow10(6) == 1_000_000 && Pow10(9) == 1_000_000_000;
    DecimalLength(n, 10_000_000_000, 10);
  }

  // A candidate of a short number is a well-formed time id.
  lemma TimeCandidateFits(base: string, n: nat)
    requires n < 10_000_000_000 && SlugText(base) && base != "" && base[0] != '-'
    ensures var id := TimeCandidate(base, n);
      SlugText(id) && 1 <= |id| <= 32 && NoHyphenEnds(id) && id != WardSchedule.FREE_TIME_ID
  {
    ShortSuffix(n);
    var stem := TimeStem(base, 32 - |Suffix(n)|);
    StemAndSuffix(stem, n);
    assert |stem + Suffix(n)| <= 32;
  }

  lemma StemAndSuffix(stem: string, n: nat)
    requires SlugText(stem) && stem != "" && stem[0] != '-'
    ensures var id := stem + Suffix(n);
      SlugText(id) && NoHyphenEnds(id) && id != WardSchedule.FREE_TIME_ID
  {
    var d := Decimal(n);
    var id := stem + Suffix(n);
    assert id[|stem|] == '-';
    assert WardSchedule.FREE_TIME_ID == "free";
    assert forall i :: 0 <= i < |stem| ==> id[i] == stem[i];
    assert forall i :: 0 <= i < |d| ==> id[|stem| + 1 + i] == d[i] && SlugChar(d[i]);
    assert IsDigit(id[|id| - 1]);
  }

  // A numbered candidate is its base, shortened for a time or a named time to make
  // room, and then a hyphen and the number.
  lemma CandidatesKeepTheBase(base: string, n: nat)
    requires |Decimal(n)| <= 31 && forall i :: 0 <= i < |base| - 1 ==> base[i] != '-' || base[i + 1] != '-'
    ensures SiteCandidate(base, n) == base + ("-" + Decimal(n))
    ensures NamedTimeCandidate(base, n) == First(base, 36) + ("-" + Decimal(n))
    ensures TimeCandidate(base, n) == WithoutCutHyphen(First(base, 31 - |Decimal(n)|)) + ("-" + Decimal(n))
  {
    CutStem(base, 31 - |Decimal(n)|);
    assert |Suffix(n)| == 1 + |Decimal(n)|;
  }

  lemma CutStem(base: string, room: nat)
    requires forall i :: 0 <= i < |base| - 1 ==> base[i] != '-' || base[i + 1] != '-'
    ensures TimeStem(base, room) == WithoutCutHyphen(First(base, room))
  {
    OneHyphenToTrim(First(base, room));
  }

  // --- allocation ---------------------------------------------------------------

  // More distinct candidates than ids held cannot all be held.
  lemma {:induction false} HeldAreFew(tried: set<string>, taken: seq<string>, reserved: set<string>)
    requires tried <= Elements(taken) + reserved
    ensures |tried| <= |taken| + |reserved|
  {
    ElementsAreFew(taken);
    SubsetSize(tried, Elements(taken) + reserved);
    UnionSize(Elements(taken), reserved);
  }

  lemma {:induction false} ElementsAreFew(s: seq<string>)
    ensures |Elements(s)| <= |s|
  {
    if s != [] {
      ElementsAreFew(s[1..]);
      assert Elements(s) == {s[0]} + Elements(s[1..]);
    }
  }

  lemma {:induction false} SubsetSize(a: set<string>, b: set<string>)
    requires a <= b
    ensures |a| <= |b|
    decreases a
  {
    if a != {} {
      var x :| x in a;
      SubsetSize(a - {x}, b - {x});
    }
  }

  lemma UnionSize(a: set<string>, b: set<string>)
    ensures |a + b| <= |a| + |b|
  {
    assert |a + b| + |a * b| == |a| + |b|;
  }

  // Distinct numbers give distinct candidates.
  ghost predicate Numbers(numbered: nat -> string) {
    forall m, n :: numbered(m) == numbered(n) ==> m == n
  }

  ghost predicate HeldBelow(numbered: nat -> string, n: nat, taken: seq<string>, reserved: set<string>) {
    forall m: nat :: 2 <= m < n ==> numbered(m) in taken || numbered(m) in reserved
  }

  lemma HeldOneMore(numbered: nat -> string, n: nat, taken: seq<string>, reserved: set<string>)
    requires HeldBelow(numbered, n, taken, reserved) && (numbered(n) in taken || numbered(n) in reserved)
    ensures HeldBelow(numbered, n + 1, taken, reserved)
  {
  }

  lemma {:induction false} TriedSoFar(numbered: nat -> string, n: nat) returns (tried: set<string>)
    requires n >= 2 && Numbers(numbered)
    ensures |tried| == n - 2 && forall x :: x in tried <==> exists m: nat :: 2 <= m < n && x == numbered(m)
    decreases n
  {
    if n == 2 {
      tried := {};
    } else {
      var before := TriedSoFar(numbered, n - 1);
      assert numbered(n - 1) !in before;
      tried := before + {numbered(n - 1)};
    }
  }

  lemma HeldNumbersAreFew(numbered: nat -> string, n: nat, taken: seq<string>, reserved: set<string>)
    requires n >= 2 && Numbers(numbered) && HeldBelow(numbered, n, taken, reserved)
    ensures n - 2 <= |taken| + |reserved|
  {
    var tried := TriedSoFar(numbered, n);
    HeldAreFew(tried, taken, reserved);
  }

  // The id is the plain base if nobody holds it, else the first free numbered one.
  ghost predicate FirstFree(id: string, plain: string, numbered: nat -> string, taken: seq<string>, reserved: set<string>) {
    && id !in taken && id !in reserved
    && (id != plain ==>
          && (plain in taken || plain in reserved)
          && exists n: nat :: n >= 2 && id == numbered(n) && HeldBelow(numbered, n, taken, reserved))
  }

  lemma FirstFreeNumbered(id: string, plain: string, f: nat -> string, n: nat, taken: seq<string>, reserved: set<string>)
    requires n >= 2 && id == f(n) && HeldBelow(f, n, taken, reserved)
    requires plain in taken || plain in reserved
    requires id !in taken && id !in reserved
    ensures FirstFree(id, plain, f, taken, reserved)
  {
  }

  function TimeFamily(lowered: string): nat -> string { (n: nat) => TimeCandidate(TimeBase(lowered), n) }

  lemma TimeFamilyNumbers(lowered: string)
    ensures Numbers(TimeFamily(lowered))
  {
    var f, base := TimeFamily(lowered), TimeBase(lowered);
    forall m, n | f(m) == f(n) ensures m == n {
      SuffixNamesItsNumber(
        TimeStem(base, if |Suffix(m)| < 32 then 32 - |Suffix(m)| else 0), m,
        TimeStem(base, if |Suffix(n)| < 32 then 32 - |Suffix(n)| else 0), n);
    }
  }

  // `taken` is a JavaScript array, so shorter than 2^32.
  method TimeSlug(lowered: string, taken: seq<string>) returns (id: string)
    requires |taken| < 0x1_0000_0000
    ensures SlugText(id) && 1 <= |id| <= 32 && NoHyphenEnds(id)
    ensures FirstFree(id, TimeBase(lowered), TimeFamily(lowered), taken, {WardSchedule.FREE_TIME_ID})
  {
    ghost var f, reserved := TimeFamily(lowered), {WardSchedule.FREE_TIME_ID};
    var base := TimeBase(lowered);
    if base != WardSchedule.FREE_TIME_ID && base !in taken { return base; }
    TimeFamilyNumbers(lowered);
    var n := 2;
    while true
      invariant n >= 2 && HeldBelow(f, n, taken, reserved)
      decreases |taken| + 4 - n
    {
      HeldNumbersAreFew(f, n, taken, reserved);
      id := TimeCandidate(base, n);
      assert id == f(n);
      if id != WardSchedule.FREE_TIME_ID && id !in taken {
        TimeCandidateFits(base, n);
        FirstFreeNumbered(id, base, f, n, taken, reserved);
        return;
      }
      HeldOneMore(f, n, taken, reserved);
      n := n + 1;
    }
  }

  // The wire takes an id of at most 40 characters of [a-z0-9-]; a candidate on a long
  // base is within that exactly below the thousandth number.
  lemma NamedTimeCandidateFits(base: string, n: nat)
    requires SlugText(base) && base != "" && base[0] != '-'
    ensures var id := NamedTimeCandidate(base, n); SlugText(id) && id != "" && id[0] != '-'
    ensures n < 1000 ==> |NamedTimeCandidate(base, n)| <= 40
    ensures |base| >= 36 ==> (|NamedTimeCandidate(base, n)| <= 40 <==> n < 1000)
  {
    var stem, d := Slice(base, 36), Decimal(n);
    var id := NamedTimeCandidate(base, n);
    assert forall i :: 0 <= i < |stem| ==> id[i] == stem[i];
    assert id[|stem|] == '-';
    assert forall i :: 0 <= i < |d| ==> id[|stem| + 1 + i] == d[i] && SlugChar(d[i]);
    if n < 1000 {
      assert Pow10(3) == 1000;
      DecimalLength(n, 1000, 3);
    } else {
      LongDecimal(n);
    }
  }

  lemma LongDecimal(n: nat)
    requires n >= 1000
    ensures |Decimal(n)| >= 4
  {
    assert n / 10 >= 100 && n / 10 / 10 >= 10;
    assert |Decimal(n / 10 / 10)| >= 2;
    assert Decimal(n / 10) == Decimal(n / 10 / 10) + [DigitChar(n / 10 % 10)];
  }

  function NamedTimeFamily(lowered: string): nat -> string { (n: nat) => NamedTimeCandidate(NamedTimeBase(lowered), n) }

  lemma NamedTimeFamilyNumbers(lowered: string)
    ensures Numbers(NamedTimeFamily(lowered))
  {
    var f, base := NamedTimeFamily(lowered), NamedTimeBase(lowered);
    forall m, n | f(m) == f(n) ensures m == n {
      SuffixNamesItsNumber(Slice(base, 36), m, Slice(base, 36), n);
    }
  }

  method NamedTimeSlug(lowered: string, taken: seq<string>) returns (id: string)
    ensures SlugText(id) && id != "" && id[0] != '-'
    ensures |taken| < 998 ==> |id| <= 40
    ensures id != NamedTimes.RESERVED_FREE_ID && id != NamedTimes.RESERVED_ON_REQUEST_ID
    ensures FirstFree(id, Slice(NamedTimeBase(lowered), 40), NamedTimeFamily(lowered), taken, {})
  {
    ghost var f := NamedTimeFamily(lowered);
    NamedTimeFamilyNumbers(lowered);
    var base := NamedTimeBase(lowered);
    id := Slice(base, 40);
    var n := 2;
    while id in taken
      invariant n >= 2
      invariant id == if n == 2 then Slice(base, 40) else f(n - 1)
      invariant n > 2 ==> Slice(base, 40) in taken && HeldBelow(f, n - 1, taken, {})
      decreases |taken| + 5 - n
    {
      assert HeldBelow(f, n, taken, {});
      HeldNumbersAreFew(f, n, taken, {});
      id := NamedTimeCandidate(base, n);
      assert id == f(n);
      n := n + 1;
    }
    if n > 2 {
      HeldNumbersAreFew(f, n - 1, taken, {});
      NamedTimeCandidateFits(base, n - 1);
    }
  }

  // --- a longer id -------------------------------------------------------------------

  lemma {:induction false} CollapseKeepsSlugs(s: string)
    requires SlugText(s) && forall i :: 0 <= i < |s| - 1 ==> s[i] != '-' || s[i + 1] != '-'
    ensures Collapse(s) == s
  {
    if s != "" {
      assert forall i :: 0 <= i < |s[1..]| ==> s[1..][i] == s[i + 1];
      CollapseKeepsSlugs(s[1..]);
    }
  }

  function Letters(n: nat): (r: string)
    ensures |r| == n && forall i :: 0 <= i < n ==> r[i] == 'a'
  {
    seq(n, i => 'a')
  }

  // 36 letters and "-999": its slug is itself, and is also its own 999th candidate.
  function LongLabel(): string { Letters(36) + "-999" }

  lemma LongLabelIsItsBase()
    ensures NamedTimeBase(LongLabel()) == LongLabel() && |LongLabel()| == 40 && Slice(LongLabel(), 36) == Letters(36)
  {
    var s := LongLabel();
    assert forall i :: 0 <= i < 36 ==> s[i] == 'a';
    assert s[36] == '-' && s[37] == '9' && s[38] == '9' && s[39] == '9';
    CollapseKeepsSlugs(s);
    assert s[..36] == Letters(36);
  }

  lemma NineNineNine()
    ensures Decimal(999) == "999"
  {
    assert Decimal(9) == "9" && Decimal(99) == "99";
  }

  // The candidates numbered 2 up to `n`.
  function NumberedIds(f: nat -> string, n: nat): (r: seq<string>)
    ensures |r| == if n <= 2 then 0 else n - 2
    ensures forall m: nat :: 2 <= m < n ==> f(m) in r
    ensures forall x :: x in r ==> exists m: nat :: 2 <= m < n && x == f(m)
    decreases n
  {
    if n <= 2 then [] else NumberedIds(f, n - 1) + [f(n - 1)]
  }

  // If exactly the candidates below `top` are taken, and the plain base is one of them,
  // the first free id is the one numbered `top`.
  lemma ForcedNumber(f: nat -> string, plain: string, taken: seq<string>, top: nat, id: string)
    requires Numbers(f) && top >= 2 && plain in taken
    requires forall m: nat :: 2 <= m < top ==> f(m) in taken
    requires forall x :: x in taken ==> exists m: nat :: 2 <= m < top && x == f(m)
    requires FirstFree(id, plain, f, taken, {})
    ensures id == f(top)
  {
    var n: nat :| n >= 2 && id == f(n) && HeldBelow(f, n, taken, {});
    assert f(n) !in taken;
    assert n > top ==> f(top) in taken;
  }

  lemma LongLabelIsItsCandidate()
    ensures NamedTimeCandidate(LongLabel(), 999) == LongLabel()
  {
    LongLabelIsItsBase();
    NineNineNine();
    var long := LongLabel();
    assert NamedTimeCandidate(long, 999) == Slice(long, 36) + Suffix(999);
    assert Suffix(999) == "-999";
  }

  lemma ThousandthIsLong(base: string)
    requires |base| >= 36
    ensures |NamedTimeCandidate(base, 1000)| == 41
  {
    assert Pow10(4) == 10_000;
    DecimalLength(1000, 10_000, 4);
    LongDecimal(1000);
  }

  // A base that is its own 999th candidate, with all candidates below 1000 taken.
  lemma TakenBelow(f: nat -> string, base: string, top: nat, id: string)
    requires top == 1000 && Numbers(f) && f(999) == base
    requires FirstFree(id, base, f, NumberedIds(f, top), {})
    ensures |NumberedIds(f, top)| == 998 && id == f(top)
  {
    ForcedNumber(f, base, NumberedIds(f, top), top, id);
  }

  // With 998 ids taken the id `NamedTimeSlug` must give is 41 long, so the bound above
  // is the best there is.
  lemma NineHundredNinetyEightTaken(top: nat, id: string)
    requires top == 1000
    requires var f := NamedTimeFamily(LongLabel());
      FirstFree(id, Slice(NamedTimeBase(LongLabel()), 40), f, NumberedIds(f, top), {})
    ensures |NumberedIds(NamedTimeFamily(LongLabel()), top)| == 998 && |id| == 41
  {
    LongLabelIsItsBase();
    LongLabelIsItsCandidate();
    NamedTimeFamilyNumbers(LongLabel());
    TakenBelow(NamedTimeFamily(LongLabel()), LongLabel(), top, id);
    ThousandthIsLong(LongLabel());
  }

  function SiteFamily(lowered: string): nat -> string { (n: nat) => SiteCandidate(SiteBase(lowered), n) }

  lemma SiteFamilyNumbers(lowered: string)
    ensures Numbers(SiteFamily(lowered))
  {
    var f, base := SiteFamily(lowered), SiteBase(lowered);
    forall m, n | f(m) == f(n) ensures m == n {
      SuffixNamesItsNumber(base, m, base, n);
    }
  }

  method SiteIdFor(lowered: string, taken: seq<string>) returns (id: string)
    ensures id != "" && id[0] != '-'
    ensures FirstFree(id, SiteBase(lowered), SiteFamily(lowered), taken, {})
  {
    ghost var f := SiteFamily(lowered);
    var base := SiteBase(lowered);
    if base !in taken { return base; }
    SiteFamilyNumbers(lowered);
    var n := 2;
    while true
      invariant n >= 2 && HeldBelow(f, n, taken, {})
      decreases |taken| + 3 - n
    {
      HeldNumbersAreFew(f, n, taken, {});
      id := SiteCandidate(base, n);
      assert id == f(n);
      if id !in taken { return; }
      n := n + 1;
    }
  }
}
