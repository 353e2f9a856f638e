// The durable outbound spool (android/jni/src/outbox.rs) and how the relay client
// uses it (android/jni/src/relay.rs): wraps every relay refused, one file each.

module Outbox {
  import opened JsText

  const MAX_AGE: nat := 604_800

  // A built wrap: its event id in hex; `body` stands for the rest.
  datatype Parcel = Parcel(id: string, body: string)

  datatype File = Parked(at: nat, parcel: Parcel) | Corrupt

  type Files = map<string, File>

  // A write lands, fails before it opens the file, or fails after emptying it.
  datatype WriteResult = Landed | Untouched | Damaged

  function Written(files: Files, name: string, parcel: Parcel, now: nat, write: WriteResult): Files {
    match write
    case Landed => files[name := Parked(now, parcel)]
    case Untouched => files
    case Damaged => files[name := Corrupt]
  }

  datatype Item = Item(name: string, at: nat, parcel: Parcel)

  predicate HexDigit(c: char) { '0' <= c <= '9' || 'a' <= c <= 'f' || 'A' <= c <= 'F' }

  predicate Hex(s: string) { forall i :: 0 <= i < |s| ==> HexDigit(s[i]) }

  function StatusName(subject: string): string { "status-" + subject + ".json" }

  function RequestName(now: nat, id: string): string { "req-" + (Decimal(now) + "-" + id) + ".json" }

  lemma StatusNamesDiffer(a: string, b: string)
    requires StatusName(a) == StatusName(b)
    ensures a == b
  {
    var n := |StatusName(a)|;
    assert a == StatusName(a)[7..n - 5] == StatusName(b)[7..n - 5] == b;
  }

  lemma RequestNamesDiffer(m: nat, a: string, n: nat, b: string)
    requires RequestName(m, a) == RequestName(n, b)
    ensures m == n && a == b
  {
    var x, y := Decimal(m) + "-" + a, Decimal(n) + "-" + b;
    var k := |RequestName(m, a)|;
    assert x == RequestName(m, a)[4..k - 5] == RequestName(n, b)[4..k - 5] == y;
    NumberedPrefixInjective(m, a, n, b);
  }

  lemma StatusIsNoRequest(subject: string, now: nat, id: string)
    ensures StatusName(subject) != RequestName(now, id)
  {
    assert StatusName(subject)[0] == 's' && RequestName(now, id)[0] == 'r';
  }

  // Not expired; a clock that went back makes nothing older.
  predicate Live(f: File, now: nat) {
    f.Parked? && (now < f.at || now - f.at <= MAX_AGE)
  }

  function LiveNames(files: Files, now: nat): set<string> {
    set n | n in files && Live(files[n], now)
  }

  function Swept(files: Files, now: nat): (r: Files)
    ensures r.Keys == LiveNames(files, now) && forall n :: n in r ==> r[n] == files[n]
  {
    map n | n in files && Live(files[n], now) :: files[n]
  }

  predicate OldestFirst(items: seq<Item>) {
    forall i, j :: 0 <= i < j < |items| ==> items[i].at <= items[j].at
  }

  predicate NamesApart(items: seq<Item>) {
    forall i, j :: 0 <= i < j < |items| ==> items[i].name != items[j].name
  }

  function NamesOf(items: seq<Item>): set<string> {
    set i | 0 <= i < |items| :: items[i].name
  }

  predicate AsParked(items: seq<Item>, files: Files) {
    forall i :: 0 <= i < |items| ==>
      items[i].name in files && files[items[i].name] == Parked(items[i].at, items[i].parcel)
  }

  // The named files, each once.
  predicate Lists(items: seq<Item>, files: Files, names: set<string>) {
    NamesApart(items) && AsParked(items, files) && NamesOf(items) == names
  }

  // --- sorting by date, equal dates in the order found ----------------------------

  function Position(items: seq<Item>, at: nat): (k: nat)
    requires OldestFirst(items)
    ensures k <= |items|
    ensures forall i :: 0 <= i < k ==> items[i].at <= at
    ensures forall i :: k <= i < |items| ==> items[i].at > at
  {
    if items == [] then 0
    else if items[|items| - 1].at <= at then |items|
    else Position(items[..|items| - 1], at)
  }

  function InsertByDate(items: seq<Item>, x: Item): seq<Item>
    requires OldestFirst(items)
  {
    var k := Position(items, x.at);
    items[..k] + [x] + items[k..]
  }

  lemma InsertedIsSorted(items: seq<Item>, x: Item)
    requires OldestFirst(items)
    ensures OldestFirst(InsertByDate(items, x))
  {
  }

  lemma InsertedNames(items: seq<Item>, x: Item, k: nat)
    requires k <= |items|
    ensures NamesOf(items[..k] + [x] + items[k..]) == NamesOf(items) + {x.name}
  {
    var r := items[..k] + [x] + items[k..];
    forall n | n in NamesOf(items) + {x.name} ensures n in NamesOf(r) {
      if n == x.name {
        assert r[k].name == n;
      } else {
        var i :| 0 <= i < |items| && items[i].name == n;
        assert r[if i < k then i else i + 1].name == n;
      }
    }
    forall n | n in NamesOf(r) ensures n in NamesOf(items) + {x.name} {
      var i :| 0 <= i < |r| && r[i].name == n;
      if i != k { assert r[i] == items[if i < k then i else i - 1]; }
    }
  }

  lemma InsertedStaysApart(items: seq<Item>, x: Item, k: nat)
    requires k <= |items| && NamesApart(items) && x.name !in NamesOf(items)
    ensures NamesApart(items[..k] + [x] + items[k..])
  {
    var r := items[..k] + [x] + items[k..];
    forall i | 0 <= i < |items| ensures items[i].name != x.name {
      assert items[i].name in NamesOf(items);
    }
    assert forall i :: 0 <= i < |r| ==> r[i] == if i < k then items[i] else if i == k then x else items[i - 1];
  }

  lemma InsertedLists(items: seq<Item>, x: Item, files: Files, names: set<string>)
    requires OldestFirst(items) && Lists(items, files, names)
    requires x.name !in names && x.name in files && files[x.name] == Parked(x.at, x.parcel)
    ensures Lists(InsertByDate(items, x), files, names + {x.name})
  {
    var k := Position(items, x.at);
    InsertedNames(items, x, k);
    InsertedStaysApart(items, x, k);
  }

  lemma ListsWhatIsLeft(items: seq<Item>, was: Files, files: Files)
    requires Lists(items, was, files.Keys) && forall n :: n in files ==> n in was && files[n] == was[n]
    ensures Lists(items, files, files.Keys)
  {
    forall i | 0 <= i < |items|
      ensures items[i].name in files && files[items[i].name] == Parked(items[i].at, items[i].parcel)
    {
      assert items[i].name in NamesOf(items);
    }
  }

  class Outbox {
    var files: Files

    constructor ()
      ensures files == map[]
    {
      files := map[];
    }

    method Write(name: string, parcel: Parcel, now: nat, write: WriteResult)
      modifies this
      ensures files == Written(old(files), name, parcel, now, write)
    {
      if write.Untouched? { return; }
      // The file is emptied before it is written.
      files := files[name := Corrupt];
      if write.Landed? { files := files[name := Parked(now, parcel)]; }
    }

    // Latest only per subject; a subject that is not hex is dropped.
    method PutStatus(subject: string, parcel: Parcel, now: nat, write: WriteResult)
      modifies this
      ensures files == if Hex(subject) then Written(old(files), StatusName(subject), parcel, now, write) else old(files)
    {
      for i := 0 to |subject|
        invariant forall j :: 0 <= j < i ==> HexDigit(subject[j])
        invariant files == old(files)
      {
        if !HexDigit(subject[i]) { return; }
      }
      Write(StatusName(subject), parcel, now, write);
    }

    method PutRequest(parcel: Parcel, now: nat, write: WriteResult)
      modifies this
      ensures files == Written(old(files), RequestName(now, parcel.id), parcel, now, write)
    {
      Write(RequestName(now, parcel.id), parcel, now, write);
    }

    method Remove(name: string)
      modifies this
      ensures files == old(files) - {name}
    {
      files := files - {name};
    }

    // Every live wrap, oldest first, the expired and the corrupt swept in passing.
    // The directory is read in any order.
    method Entries(now: nat) returns (items: seq<Item>)
      modifies this
      ensures files == Swept(old(files), now)
      ensures OldestFirst(items) && Lists(items, files, files.Keys)
    {
      items := [];
      ghost var was := files;
      var todo := files.Keys;
      ghost var done: set<string> := {};
      while todo != {}
        invariant todo <= was.Keys && todo <= files.Keys <= was.Keys
        invariant forall n :: n in files ==> files[n] == was[n]
        invariant forall n :: n in was && n !in todo ==> (n in files <==> Live(was[n], now))
        invariant done == LiveNames(was, now) - todo
        invariant OldestFirst(items) && Lists(items, was, done)
        decreases todo
      {
        var n :| n in todo;
        var f := files[n];
        if f.Parked? && (if now < f.at then 0 else now - f.at) <= MAX_AGE {
          InsertedIsSorted(items, Item(n, f.at, f.parcel));
          InsertedLists(items, Item(n, f.at, f.parcel), was, done);
          items := InsertByDate(items, Item(n, f.at, f.parcel));
          done := done + {n};
        } else {
          Remove(n);
        }
        todo := todo - {n};
      }
      assert files == Swept(was, now);
      ListsWhatIsLeft(items, was, files);
    }

    method Len() returns (n: nat)
      ensures n == |files|
    {
      n := |files|;
    }
  }
}
