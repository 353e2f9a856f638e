// The SDK's clause cache (src/evaluator/evaluator.ts): signed clauses arrive from
// several relays in any order, with duplicates, and `check` answers from the newest.

module ClauseCache {
  import opened Seqs

  // A delivered event. `verified` is the signature check; `dTag` the first `d` tag's
  // value; `clause` what its content decrypts, parses and validates to, if it does.
  datatype Event = Event(
    id: string, verified: bool, author: string, dTag: Option<string>, createdAt: int, clause: Option<string>)

  datatype Record = Record(clause: string, eventId: string, createdAt: int)

  // `subject` and `canonical` are stored lower-cased.
  datatype Session = Session(authors: seq<string>, relays: seq<string>, canonical: Option<string>, subject: string)

  datatype Verdict = Allow(reason: Option<string>) | Deny(why: string)

  const NO_PAIRING := Allow(Some("no_pairing"))
  const NO_CLAUSE := Allow(Some("no_clause"))
  const RELAY_UNAVAILABLE := Deny("relay_unavailable")

  // --- tags and keys ------------------------------------------------------------

  // The parts of a value with exactly one colon.
  function ColonAt(s: string): (k: Option<nat>)
    ensures k.Some? ==> k.value < |s| && s[k.value] == ':' && forall i :: 0 <= i < k.value ==> s[i] != ':'
    ensures k.None? <==> ':' !in s
  {
    if s == "" then None
    else if s[0] == ':' then Some(0)
    else
      var k := ColonAt(s[1..]);
      if k.Some? then Some(k.value + 1) else None
  }

  datatype Parts = Parts(subject: string, consumer: string)

  function SplitInTwo(s: string): (p: Option<Parts>)
    ensures p.Some? ==> s == p.value.subject + ":" + p.value.consumer && ':' !in p.value.subject && ':' !in p.value.consumer
  {
    var k := ColonAt(s);
    if k.None? || ColonAt(s[k.value + 1..]).Some? then None
    else Some(Parts(s[..k.value], s[k.value + 1..]))
  }

  function Key(subject: string, consumer: string): string { subject + ":" + consumer }

  // The subject whose record an event would become, if it is accepted at all.
  function Subject(session: Session, app: string, e: Event): Option<string> {
    if !e.verified || e.author !in session.authors || e.dTag.None? then None
    else
      var p := SplitInTwo(e.dTag.value);
      if p.None? || p.value.consumer != app || e.clause.None? then None else Some(p.value.subject)
  }

  function Accepts(session: Session, app: string, e: Event, key: string): bool {
    Subject(session, app, e).Some? && Key(Subject(session, app, e).value, app) == key
  }

  function RecordOf(e: Event): Record
    requires e.clause.Some?
  {
    Record(e.clause.value, e.id, e.createdAt)
  }

  // --- the cache as deliveries leave it ---------------------------------------------

  datatype Store = Store(cache: map<string, Record>, seen: set<string>)

  // A record is replaced unless it is strictly newer.
  function Deliver(session: Session, app: string, s: Store, e: Event): Store {
    if e.id in s.seen then s
    else
      var seen := s.seen + {e.id};
      var subject := Subject(session, app, e);
      if subject.None? then s.(seen := seen)
      else
        var key := Key(subject.value, app);
        if key in s.cache && s.cache[key].createdAt > e.createdAt then s.(seen := seen)
        else Store(s.cache[key := RecordOf(e)], seen)
  }

  function Feed(session: Session, app: string, events: seq<Event>): Store {
    if events == [] then Store(map[], {})
    else Deliver(session, app, Feed(session, app, events[..|events| - 1]), events[|events| - 1])
  }

  // --- check ------------------------------------------------------------------------

  predicate HexChar(c: char) { '0' <= c <= '9' || 'a' <= c <= 'f' || 'A' <= c <= 'F' }

  predicate Hex64(s: string) { |s| == 64 && forall i :: 0 <= i < |s| ==> HexChar(s[i]) }

  function LowerChar(c: char): char {
    if 'A' <= c <= 'Z' then (c as int - 'A' as int + 'a' as int) as char else c
  }

  function Lower(s: string): (r: string)
    ensures |r| == |s| && forall i :: 0 <= i < |s| ==> r[i] == LowerChar(s[i])
  {
    if s == "" then "" else [LowerChar(s[0])] + Lower(s[1..])
  }

  function OwnSubject(session: Session): string {
    if session.canonical.Some? then session.canonical.value else session.subject
  }

  // The session's own clause first, then the asked subject's.
  function LookupKeys(session: Session, app: string, subject: string): seq<string> {
    if OwnSubject(session) == subject then [Key(subject, app)]
    else [Key(OwnSubject(session), app), Key(subject, app)]
  }

  function Found(cache: map<string, Record>, keys: seq<string>): Option<Record> {
    if keys == [] then None
    else if keys[0] in cache then Some(cache[keys[0]])
    else Found(cache, keys[1..])
  }

  // `evaluate` is the schedule rule applied to a clause at the asked time.
  function Answer(session: Option<Session>, app: string, connects: nat, cache: map<string, Record>,
      asked: string, evaluate: string -> Verdict): Verdict
  {
    if session.None? || !Hex64(asked) then NO_PAIRING
    else
      var found := Found(cache, LookupKeys(session.value, app, Lower(asked)));
      if found.Some? then evaluate(found.value.clause)
      else if connects == 0 && session.value.relays != [] then RELAY_UNAVAILABLE
      else NO_CLAUSE
  }

  class Evaluator {
    const app: string
    var session: Option<Session>
    var initialized: bool
    var connects: nat
    var cache: map<string, Record>
    var seen: set<string>

    constructor (app: string)
      ensures this.app == app && session == None && !initialized && cache == map[] && seen == {}
    {
      this.app := app;
      session, initialized, connects, cache, seen := None, false, 0, map[], {};
    }

    // Start on a session, or on none if it is not usable. `up` relays connect.
    method Init(input: Session, up: nat) returns (relayConnected: bool)
      modifies this
      ensures initialized && cache == map[] && seen == {}
      ensures session == if input.authors == [] || input.relays == [] || !Hex64(input.subject) then None
                         else Some(input.(canonical := Canonical(input), subject := Lower(input.subject)))
      ensures relayConnected == (session.Some? && up > 0)
      ensures session.Some? ==> connects == up
    {
      seen, cache := {}, map[];
      if |input.authors| == 0 || |input.relays| == 0 || !Hex64(input.subject) {
        session, initialized := None, true;
        return false;
      }
      session := Some(input.(canonical := Canonical(input), subject := Lower(input.subject)));
      connects := up;
      initialized := true;
      relayConnected := connects > 0;
    }

    method ProcessIncomingEvent(e: Event)
      modifies this`cache, this`seen
      ensures session.None? ==> cache == old(cache) && seen == old(seen)
      ensures session.Some? ==>
        Store(cache, seen) == Deliver(session.value, app, Store(old(cache), old(seen)), e)
    {
      if session.None? { return; }
      if e.id in seen { return; }
      seen := seen + {e.id};
      if !e.verified { return; }
      if e.author !in session.value.authors { return; }
      if e.dTag.None? { return; }
      var parts := SplitInTwo(e.dTag.value);
      if parts.None? { return; }
      if parts.value.consumer != app { return; }
      if e.clause.None? { return; }
      var key := Key(parts.value.subject, parts.value.consumer);
      if key in cache && cache[key].createdAt > e.createdAt { return; }
      cache := cache[key := RecordOf(e)];
    }

    // All a relay stream delivers after `Init`.
    method Receive(events: seq<Event>)
      requires session.Some? && cache == map[] && seen == {}
      modifies this`cache, this`seen
      ensures Store(cache, seen) == Feed(session.value, app, events)
    {
      for i := 0 to |events|
        invariant Store(cache, seen) == Feed(session.value, app, events[..i])
      {
        assert events[..i + 1][..i] == events[..i];
        ProcessIncomingEvent(events[i]);
      }
      assert events[..|events|] == events;
    }

    method Check(asked: string, evaluate: string -> Verdict) returns (v: Verdict)
      ensures v == if initialized then Answer(session, app, connects, cache, asked, evaluate) else NO_PAIRING
    {
      if !initialized || session.None? { return NO_PAIRING; }
      if !Hex64(asked) { return NO_PAIRING; }
      var keys := LookupKeys(session.value, app, Lower(asked));
      var cached: Option<Record> := None;
      for i := 0 to |keys|
        invariant cached == None && Found(cache, keys) == Found(cache, keys[i..])
      {
        assert keys[i..][1..] == keys[i + 1..];
        if keys[i] in cache {
          cached := Some(cache[keys[i]]);
          break;
        }
      }
      if cached.None? {
        if connects == 0 && |session.value.relays| > 0 { return RELAY_UNAVAILABLE; }
        return NO_CLAUSE;
      }
      v := evaluate(cached.value.clause);
    }

    method Shutdown()
      modifies this
      ensures session == None && !initialized && connects == 0 && cache == map[] && seen == {}
    {
      session, initialized, connects, cache, seen := None, false, 0, map[], {};
    }
  }

  function Canonical(input: Session): Option<string> {
    if input.canonical.Some? && input.canonical.value != "" then Some(Lower(input.canonical.value)) else None
  }

  // A clause for the session's own subject decides for whichever subject is asked;
  // without any, the answer allows unless no relay could be reached.
  lemma OwnClauseDecides(session: Session, app: string, connects: nat, cache: map<string, Record>,
      asked: string, evaluate: string -> Verdict)
    requires Hex64(asked)
    ensures var own, other := Key(OwnSubject(session), app), Key(Lower(asked), app);
      var v := Answer(Some(session), app, connects, cache, asked, evaluate);
      && (own in cache ==> v == evaluate(cache[own].clause))
      && (own !in cache && other in cache ==> v == evaluate(cache[other].clause))
      && (own !in cache && other !in cache ==>
            v == if connects == 0 && session.relays != [] then RELAY_UNAVAILABLE else NO_CLAUSE)
  {
    FoundInOne(cache, Key(Lower(asked), app));
    if OwnSubject(session) != Lower(asked) {
      FoundInTwo(cache, Key(OwnSubject(session), app), Key(Lower(asked), app));
    }
  }

  lemma FoundInOne(cache: map<string, Record>, key: string)
    ensures Found(cache, [key]) == if key in cache then Some(cache[key]) else None
  {
    assert [key][1..] == [];
  }

  lemma FoundInTwo(cache: map<string, Record>, first: string, second: string)
    ensures Found(cache, [first, second])
         == if first in cache then Some(cache[first]) else if second in cache then Some(cache[second]) else None
  {
    assert [first, second][1..] == [second];
    FoundInOne(cache, second);
  }

  // An event becomes a key's record when it is verified, from a known author, carries a
  // clause that reads, and is tagged with the key: one colon, then the app's own name.
  lemma AcceptsExactly(session: Session, app: string, e: Event, key: string)
    ensures Accepts(session, app, e, key)
       <==> && e.verified && e.author in session.authors && e.clause.Some? && e.dTag == Some(key)
            && ':' !in app && exists n :: 0 <= n < |key| && key[n] == ':' && ':' !in key[..n] && key[n + 1..] == app
  {
    if e.dTag.Some? {
      var tag := e.dTag.value;
      var k := ColonAt(tag);
      if k.Some? { assert tag == tag[..k.value] + ":" + tag[k.value + 1..]; }
      if e.dTag == Some(key) && ':' !in app {
        forall n | 0 <= n < |key| && key[n] == ':' && ':' !in key[..n] && key[n + 1..] == app ensures k == Some(n) {
          FirstColon(key, n);
        }
      }
    }
  }

  lemma FirstColon(s: string, n: nat)
    requires n < |s| && s[n] == ':' && ':' !in s[..n]
    ensures ColonAt(s) == Some(n)
  {
    assert forall i :: 0 <= i < n ==> s[i] == s[..n][i] && s[..n][i] in s[..n];
    assert s[n] in s;
  }

  // An asked subject is 64 hex characters; anything else reads as no pairing, which
  // allows.
  lemma NotASubject(session: Option<Session>, app: string, connects: nat, cache: map<string, Record>,
      asked: string, evaluate: string -> Verdict)
    requires |asked| != 64 || exists i :: 0 <= i < |asked| && asked[i] !in "0123456789abcdefABCDEF"
    ensures Answer(session, app, connects, cache, asked, evaluate) == Allow(Some("no_pairing"))
  {
    if Hex64(asked) {
      var i :| 0 <= i < |asked| && asked[i] !in "0123456789abcdefABCDEF";
      HexDigits(asked[i]);
    }
  }

  lemma HexDigits(c: char)
    requires HexChar(c)
    ensures c in "0123456789abcdefABCDEF"
  {
    var digits := "0123456789abcdefABCDEF";
    var k := c as int - if c <= '9' then '0' as int else if c <= 'F' then 'A' as int - 16 else 'a' as int - 10;
    assert digits[k] == c;
  }

  // The answer is the same however the subject's letters are cased.
  lemma AnySpellingOfTheSubject(session: Option<Session>, app: string, connects: nat, cache: map<string, Record>,
      asked: string, other: string, evaluate: string -> Verdict)
    requires |asked| == |other| && forall i :: 0 <= i < |asked| ==> asked[i] == other[i] || OneLetter(asked[i], other[i])
    ensures Answer(session, app, connects, cache, asked, evaluate) == Answer(session, app, connects, cache, other, evaluate)
  {
    SameSubject(asked, other);
  }

  lemma SameSubject(a: string, b: string)
    requires |a| == |b| && forall i :: 0 <= i < |a| ==> a[i] == b[i] || OneLetter(a[i], b[i])
    ensures Lower(a) == Lower(b) && (Hex64(a) <==> Hex64(b))
  {
    forall i | 0 <= i < |a| ensures LowerChar(a[i]) == LowerChar(b[i]) && (HexChar(a[i]) <==> HexChar(b[i])) {
      SameChar(a[i], b[i]);
    }
    var x, y := Lower(a), Lower(b);
    assert forall i :: 0 <= i < |a| ==> x[i] == y[i];
  }

  lemma SameChar(a: char, b: char)
    requires a == b || OneLetter(a, b)
    ensures LowerChar(a) == LowerChar(b) && (HexChar(a) <==> HexChar(b))
  {
  }

  // The same letter in two cases.
  predicate OneLetter(a: char, b: char) {
    || ('A' <= a <= 'Z' && b as int == a as int + 32)
    || ('A' <= b <= 'Z' && a as int == b as int + 32)
  }

  // --- what a run of deliveries leaves ---------------------------------------------

  predicate FirstOfItsId(events: seq<Event>, k: nat)
    requires k < |events|
  {
    forall j :: 0 <= j < k ==> events[j].id != events[k].id
  }

  lemma {:induction false} SeenAreDelivered(session: Session, app: string, events: seq<Event>, id: string)
    ensures id in Feed(session, app, events).seen <==> exists k :: 0 <= k < |events| && events[k].id == id
  {
    if events != [] {
      var n := |events| - 1;
      SeenAreDelivered(session, app, events[..n], id);
      assert forall k :: 0 <= k < n ==> events[..n][k] == events[k];
      if id in Feed(session, app, events[..n]).seen {
        var k :| 0 <= k < n && events[..n][k].id == id;
        assert events[k].id == id;
      }
    }
  }

  // An accepted first delivery for this key.
  predicate Counts(session: Session, app: string, events: seq<Event>, key: string, k: nat) {
    k < |events| && FirstOfItsId(events, k) && Accepts(session, app, events[k], key)
  }

  lemma CountsBefore(session: Session, app: string, events: seq<Event>, key: string, k: nat)
    requires k < |events| - 1
    ensures Counts(session, app, events, key, k) <==> Counts(session, app, events[..|events| - 1], key, k)
  {
  }

  // The last of the newest accepted first deliveries.
  function Best(session: Session, app: string, events: seq<Event>, key: string): (b: Option<nat>)
    ensures b.Some? ==> b.value < |events| && Accepts(session, app, events[b.value], key)
  {
    if events == [] then None
    else
      var n := |events| - 1;
      var b := Best(session, app, events[..n], key);
      if Counts(session, app, events, key, n) && (b.None? || events[b.value].createdAt <= events[n].createdAt) then Some(n)
      else b
  }

  lemma {:induction false} CacheIsBest(session: Session, app: string, events: seq<Event>, key: string)
    ensures var cache, b := Feed(session, app, events).cache, Best(session, app, events, key);
      (key in cache <==> b.Some?) && (b.Some? ==> cache[key] == RecordOf(events[b.value]))
  {
    if events != [] {
      var n := |events| - 1;
      var before, b := Feed(session, app, events[..n]), Best(session, app, events[..n], key);
      CacheIsBest(session, app, events[..n], key);
      SeenAreDelivered(session, app, events[..n], events[n].id);
      FirstIsUnseen(events, n);
      assert Feed(session, app, events) == Deliver(session, app, before, events[n]);
      assert b.Some? ==> events[..n][b.value] == events[b.value];
      assert Best(session, app, events, key) ==
        if Counts(session, app, events, key, n) && (b.None? || events[b.value].createdAt <= events[n].createdAt) then Some(n) else b;
    }
  }

  lemma FirstIsUnseen(events: seq<Event>, n: nat)
    requires n == |events| - 1
    ensures FirstOfItsId(events, n) <==> !exists k :: 0 <= k < |events[..n]| && events[..n][k].id == events[n].id
  {
    assert forall k :: 0 <= k < n ==> events[..n][k] == events[k];
  }

  lemma {:induction false} BestCounts(session: Session, app: string, events: seq<Event>, key: string)
    requires Best(session, app, events, key).Some?
    ensures Counts(session, app, events, key, Best(session, app, events, key).value)
  {
    var n := |events| - 1;
    var b := Best(session, app, events, key).value;
    if b < n {
      BestCounts(session, app, events[..n], key);
      CountsBefore(session, app, events, key, b);
    }
  }

  // Nothing that counts is newer than the best, and something counts only if there is one.
  lemma {:induction false} BestIsNewest(session: Session, app: string, events: seq<Event>, key: string, k: nat)
    requires Counts(session, app, events, key, k)
    ensures var b := Best(session, app, events, key);
      b.Some? && events[k].createdAt <= events[b.value].createdAt
  {
    var n := |events| - 1;
    var b := Best(session, app, events[..n], key);
    assert Best(session, app, events, key) ==
      if Counts(session, app, events, key, n) && (b.None? || events[b.value].createdAt <= events[n].createdAt) then Some(n) else b;
    if k < n {
      CountsBefore(session, app, events, key, k);
      BestIsNewest(session, app, events[..n], key, k);
      assert events[..n][k] == events[k] && events[..n][b.value] == events[b.value];
    } else {
      assert k == n;
    }
  }

  // After any deliveries, a key has a record as soon as one first delivery for it was
  // accepted; the record is such a delivery's, and none is newer.
  lemma RecordIsNewest(session: Session, app: string, events: seq<Event>, key: string, k: nat) returns (b: nat)
    ensures var cache := Feed(session, app, events).cache;
      && (key in cache ==> Counts(session, app, events, key, b) && cache[key] == RecordOf(events[b]))
      && (Counts(session, app, events, key, k) ==> key in cache && events[k].createdAt <= cache[key].createdAt)
  {
    CacheIsBest(session, app, events, key);
    var best := Best(session, app, events, key);
    if best.Some? { BestCounts(session, app, events, key); }
    if Counts(session, app, events, key, k) { BestIsNewest(session, app, events, key, k); }
    b := if best.Some? then best.value else 0;
  }

  // --- convergence --------------------------------------------------------------------

  // Every copy of an id that is delivered is the same event.
  predicate FaithfulCopies(events: seq<Event>) {
    forall i, j :: 0 <= i < j < |events| && events[i].id == events[j].id ==> events[i] == events[j]
  }

  ghost predicate SameEvents(a: seq<Event>, b: seq<Event>) { forall e :: e in a <==> e in b }

  ghost predicate Outdone(session: Session, app: string, events: seq<Event>, key: string, at: int) {
    exists g :: g in events && Accepts(session, app, g, key) && g.createdAt > at
  }

  ghost predicate Tied(session: Session, app: string, events: seq<Event>, key: string, e: Event, f: Event) {
    && e in events && f in events && e != f && e.createdAt == f.createdAt
    && Accepts(session, app, e, key) && Accepts(session, app, f, key)
  }

  // Only one event is newest for this key.
  ghost predicate UniqueNewest(session: Session, app: string, events: seq<Event>, key: string) {
    forall e, f :: Tied(session, app, events, key, e, f) ==> Outdone(session, app, events, key, e.createdAt)
  }

  lemma {:induction false} FirstCopy(events: seq<Event>, k: nat) returns (j: nat)
    requires k < |events|
    ensures j <= k && events[j].id == events[k].id && FirstOfItsId(events, j)
    decreases k
  {
    if FirstOfItsId(events, k) {
      j := k;
    } else {
      var i :| 0 <= i < k && events[i].id == events[k].id;
      j := FirstCopy(events, i);
    }
  }

  // With faithful copies the record is the newest accepted event's, delivered
  // first or not.
  lemma FaithfulRecord(session: Session, app: string, events: seq<Event>, key: string) returns (best: Option<Event>)
    requires FaithfulCopies(events)
    ensures var cache := Feed(session, app, events).cache;
      && (key in cache <==> best.Some?)
      && (best.Some? ==> best.value in events && Accepts(session, app, best.value, key) && cache[key] == RecordOf(best.value))
    ensures forall e :: e in events && Accepts(session, app, e, key) ==> best.Some? && e.createdAt <= best.value.createdAt
  {
    CacheIsBest(session, app, events, key);
    var b := Best(session, app, events, key);
    best := if b.Some? then Some(events[b.value]) else None;
    forall e | e in events && Accepts(session, app, e, key)
      ensures best.Some? && e.createdAt <= best.value.createdAt
    {
      var k :| 0 <= k < |events| && events[k] == e;
      var j := FirstCopy(events, k);
      assert events[j] == e;
      BestIsNewest(session, app, events, key, j);
    }
  }

  predicate AgreeOn(x: map<string, Record>, y: map<string, Record>, key: string) {
    (key in x <==> key in y) && (key in x ==> x[key] == y[key])
  }

  // When the newest event for a key is unique, its record is the same for every order
  // and duplication of the same events.
  lemma OrderDoesNotMatter(session: Session, app: string, a: seq<Event>, b: seq<Event>, key: string)
    requires FaithfulCopies(a) && FaithfulCopies(b) && SameEvents(a, b) && UniqueNewest(session, app, a, key)
    ensures AgreeOn(Feed(session, app, a).cache, Feed(session, app, b).cache, key)
  {
    var p := FaithfulRecord(session, app, a, key);
    var q := FaithfulRecord(session, app, b, key);
    if p.Some? && q.Some? {
      assert p.value in b && q.value in a;
      assert !Outdone(session, app, a, key, p.value.createdAt);
      assert !Tied(session, app, a, key, p.value, q.value);
    }
  }

  lemma {:induction false} SameRecordsSameFind(x: map<string, Record>, y: map<string, Record>, keys: seq<string>)
    requires forall k :: 0 <= k < |keys| ==> AgreeOn(x, y, keys[k])
    ensures Found(x, keys) == Found(y, keys)
  {
    if keys != [] {
      assert forall k :: 0 <= k < |keys[1..]| ==> keys[1..][k] == keys[k + 1];
      assert AgreeOn(x, y, keys[0]);
      SameRecordsSameFind(x, y, keys[1..]);
    }
  }

  lemma AgreeingCachesAnswerAlike(session: Session, app: string, connects: nat,
      x: map<string, Record>, y: map<string, Record>, asked: string, evaluate: string -> Verdict)
    requires AgreeOn(x, y, Key(OwnSubject(session), app)) && AgreeOn(x, y, Key(Lower(asked), app))
    ensures Answer(Some(session), app, connects, x, asked, evaluate) == Answer(Some(session), app, connects, y, asked, evaluate)
  {
    SameRecordsSameFind(x, y, LookupKeys(session, app, Lower(asked)));
  }

  // So every later check answers the same, whatever the relays' order.
  lemma ChecksConverge(session: Session, app: string, connects: nat, a: seq<Event>, b: seq<Event>,
      asked: string, evaluate: string -> Verdict)
    requires FaithfulCopies(a) && FaithfulCopies(b) && SameEvents(a, b)
    requires UniqueNewest(session, app, a, Key(OwnSubject(session), app))
    requires UniqueNewest(session, app, a, Key(Lower(asked), app))
    ensures Answer(Some(session), app, connects, Feed(session, app, a).cache, asked, evaluate)
         == Answer(Some(session), app, connects, Feed(session, app, b).cache, asked, evaluate)
  {
    var x, y := Feed(session, app, a).cache, Feed(session, app, b).cache;
    OrderDoesNotMatter(session, app, a, b, Key(OwnSubject(session), app));
    OrderDoesNotMatter(session, app, a, b, Key(Lower(asked), app));
    AgreeingCachesAnswerAlike(session, app, connects, x, y, asked, evaluate);
  }

  // --- where it does not converge -----------------------------------------------------

  // Two newest events of one date: the one delivered last wins, so two orders of the
  // same events leave different records.
  lemma TieGoesToTheLast(session: Session, app: string, events: seq<Event>, key: string, e: Event, f: Event)
    requires Accepts(session, app, e, key) && Accepts(session, app, f, key) && e.id != f.id && e.createdAt == f.createdAt
    requires forall g :: g in events ==> g.id != e.id && g.id != f.id
    requires forall g :: g in events && Accepts(session, app, g, key) ==> g.createdAt <= e.createdAt
    ensures var x, y := Feed(session, app, events + [e, f]).cache, Feed(session, app, events + [f, e]).cache;
      key in x && key in y && x[key] == RecordOf(f) && y[key] == RecordOf(e) && x[key] != y[key]
  {
    LastOfTwo(session, app, events, key, e, f);
    LastOfTwo(session, app, events, key, f, e);
  }

  lemma LastOfTwo(session: Session, app: string, events: seq<Event>, key: string, e: Event, f: Event)
    requires Accepts(session, app, f, key) && Accepts(session, app, e, key) && e.id != f.id && f.createdAt == e.createdAt
    requires forall g :: g in events ==> g.id != e.id && g.id != f.id
    requires forall g :: g in events && Accepts(session, app, g, key) ==> g.createdAt <= f.createdAt
    ensures var x := Feed(session, app, events + [e, f]).cache;
      key in x && x[key] == RecordOf(f)
  {
    var all := events + [e, f];
    var n := |all| - 1;
    assert all[..n] == events + [e];
    CacheIsBest(session, app, all, key);
    var b := Best(session, app, all[..n], key);
    if b.Some? {
      assert all[b.value] in events || all[b.value] == e;
    }
    forall j | 0 <= j < n ensures all[j].id != f.id {
      assert all[j] in events || all[j] == e;
    }
    assert Counts(session, app, all, key, n);
  }

  // An id is marked seen before its event is verified, so one damaged copy delivered
  // first keeps the genuine event out for the whole session.
  lemma DamagedCopyHidesTheGenuine(session: Session, app: string, events: seq<Event>, k: nat, n: nat, key: string)
    requires k < n < |events| && events[k].id == events[n].id && FirstOfItsId(events, k)
    requires Subject(session, app, events[k]).None?
    ensures var cache := Feed(session, app, events).cache;
      key in cache ==> cache[key].eventId != events[n].id
  {
    CacheIsBest(session, app, events, key);
    var b := Best(session, app, events, key);
    if b.Some? { BestCounts(session, app, events, key); }
  }

  // --- both halves as one ----------------------------------------------------------------

  // The same record for every delivery order and duplication of these events.
  ghost predicate SameForEveryOrder(session: Session, app: string, a: seq<Event>, key: string) {
    forall b :: FaithfulCopies(b) && SameEvents(a, b) ==>
      AgreeOn(Feed(session, app, a).cache, Feed(session, app, b).cache, key)
  }

  function Others(events: seq<Event>, e: Event, f: Event): seq<Event> {
    Filter((g: Event) => g.id != e.id && g.id != f.id, events)
  }

  lemma FilteredFaithful(events: seq<Event>, e: Event, f: Event, x: Event, y: Event)
    requires FaithfulCopies(events) && e in events && f in events && e.id != f.id
    requires (x == e && y == f) || (x == f && y == e)
    ensures FaithfulCopies(Others(events, e, f) + [x, y]) && SameEvents(events, Others(events, e, f) + [x, y])
  {
    var rest := Others(events, e, f);
    var all := rest + [x, y];
    CopiesById(events);
    forall g ensures g in events <==> g in all {
      assert g in all <==> g in rest || g == x || g == y;
    }
    forall i, j | 0 <= i < j < |all| && all[i].id == all[j].id ensures all[i] == all[j] {
      assert all[i] in all && all[j] in all;
    }
  }

  lemma CopiesById(events: seq<Event>)
    requires FaithfulCopies(events)
    ensures forall g, h :: g in events && h in events && g.id == h.id ==> g == h
  {
  }

  // With faithful copies, a key's record is the same for every order of the same events
  // exactly when its newest accepted event is unique.
  lemma ConvergesExactly(session: Session, app: string, a: seq<Event>, key: string)
    requires FaithfulCopies(a)
    ensures SameForEveryOrder(session, app, a, key) <==> UniqueNewest(session, app, a, key)
  {
    if UniqueNewest(session, app, a, key) {
      forall b | FaithfulCopies(b) && SameEvents(a, b)
        ensures AgreeOn(Feed(session, app, a).cache, Feed(session, app, b).cache, key)
      {
        OrderDoesNotMatter(session, app, a, b, key);
      }
    } else {
      var e, f :| Tied(session, app, a, key, e, f) && !Outdone(session, app, a, key, e.createdAt);
      TiedOrdersDiffer(session, app, a, key, e, f);
    }
  }

  lemma TiedOrdersDiffer(session: Session, app: string, a: seq<Event>, key: string, e: Event, f: Event)
    requires FaithfulCopies(a) && Tied(session, app, a, key, e, f) && !Outdone(session, app, a, key, e.createdAt)
    ensures !SameForEveryOrder(session, app, a, key)
  {
    CopiesById(a);
    FilteredFaithful(a, e, f, e, f);
    FilteredFaithful(a, e, f, f, e);
    var rest := Others(a, e, f);
    TieGoesToTheLast(session, app, rest, key, e, f);
    var x, y := Feed(session, app, rest + [e, f]).cache, Feed(session, app, rest + [f, e]).cache;
    var here := Feed(session, app, a).cache;
    assert !(AgreeOn(here, x, key) && AgreeOn(here, y, key));
  }

  // --- when the newest is never missed ---------------------------------------------------

  predicate Accepted(session: Session, app: string, events: seq<Event>, key: string, k: nat) {
    k < |events| && Accepts(session, app, events[k], key)
  }

  // No accepted delivery for the key is newer than the record.
  ghost predicate NothingNewerMissed(session: Session, app: string, events: seq<Event>, key: string) {
    var cache := Feed(session, app, events).cache;
    forall k: nat :: Accepted(session, app, events, key, k) ==> key in cache && events[k].createdAt <= cache[key].createdAt
  }

  // An accepted first copy is at least as new as the delivery at `k`.
  ghost predicate Matched(session: Session, app: string, events: seq<Event>, key: string, k: nat)
    requires k < |events|
  {
    exists j: nat :: Counts(session, app, events, key, j) && events[j].createdAt >= events[k].createdAt
  }

  lemma MissedExactlyAt(session: Session, app: string, events: seq<Event>, key: string, k: nat)
    requires Accepted(session, app, events, key, k)
    ensures var cache := Feed(session, app, events).cache;
      key in cache && events[k].createdAt <= cache[key].createdAt <==> Matched(session, app, events, key, k)
  {
    var cache := Feed(session, app, events).cache;
    var b := RecordIsNewest(session, app, events, key, k);
    if Matched(session, app, events, key, k) {
      var j: nat :| Counts(session, app, events, key, j) && events[j].createdAt >= events[k].createdAt;
      var c := RecordIsNewest(session, app, events, key, j);
    }
  }

  // Over all deliveries, damaged copies included: no accepted event is newer than the
  // record exactly when each is matched by an accepted first copy at least as new.
  lemma MissesNothingExactly(session: Session, app: string, events: seq<Event>, key: string)
    ensures NothingNewerMissed(session, app, events, key)
      <==> forall k: nat :: Accepted(session, app, events, key, k) ==> Matched(session, app, events, key, k)
  {
    forall k: nat | Accepted(session, app, events, key, k)
      ensures var cache := Feed(session, app, events).cache;
        key in cache && events[k].createdAt <= cache[key].createdAt <==> Matched(session, app, events, key, k)
    {
      MissedExactlyAt(session, app, events, key, k);
    }
  }

  // Faithful copies miss nothing.
  lemma FaithfulMissNothing(session: Session, app: string, events: seq<Event>, key: string)
    requires FaithfulCopies(events)
    ensures NothingNewerMissed(session, app, events, key)
  {
    forall k: nat | Accepted(session, app, events, key, k) ensures Matched(session, app, events, key, k) {
      var j := FirstCopy(events, k);
      assert events[j] == events[k] && Counts(session, app, events, key, j);
    }
    MissesNothingExactly(session, app, events, key);
  }

  // A clause accepted last is missed because a copy whose signature is damaged came first.
  lemma ADamagedStream(clause: string)
    ensures var session := Session(["author"], [], None, "s");
      var good := Event("1", true, "author", Some("s:app"), 7, Some(clause));
      var stream := [good.(verified := false), good];
      && Accepts(session, "app", good, Key("s", "app"))
      && Key("s", "app") !in Feed(session, "app", stream).cache
      && !NothingNewerMissed(session, "app", stream, Key("s", "app"))
  {
    var session := Session(["author"], [], None, "s");
    var good := Event("1", true, "author", Some("s:app"), 7, Some(clause));
    var bad := good.(verified := false);
    var stream := [bad, good];
    assert SplitInTwo("s:app") == Some(Parts("s", "app")) by {
      assert ColonAt("s:app") == Some(1);
      assert "s:app"[..1] == "s" && "s:app"[2..] == "app" && ColonAt("app") == None;
    }
    assert Subject(session, "app", good) == Some("s") && Subject(session, "app", bad).None?;
    assert stream[..1] == [bad] && stream[..1][..0] == [];
    assert Feed(session, "app", stream[..1]) == Store(map[], {"1"});
    assert Accepted(session, "app", stream, Key("s", "app"), 1);
  }
}
