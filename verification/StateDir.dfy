// The carrier's state directory (android/jni-guardian/src/link.rs): claimed for one
// guardian at a time, so that no queue, inbox or delivery record crosses into
// another guardian's link, whatever crashes or fails half way.

module StateDir {
  import opened Seqs

  const OWNER_FILE := "guardian"

  predicate KeyChar(c: char) { '0' <= c <= '9' || 'a' <= c <= 'f' }

  predicate IsKey(s: string) { |s| == 64 && forall i :: 0 <= i < 64 ==> KeyChar(s[i]) }

  // A guardian's public key as it is written: 64 lower-case hex characters.
  type Guardian = s: string | IsKey(s) witness seq(64, _ => '0')

  // White space as Rust's `str::trim` strips it.
  predicate Blank(c: char) {
    || '\t' <= c <= '\r' || c == ' ' || c == '\U{85}' || c == '\U{A0}' || c == '\U{1680}'
    || '\U{2000}' <= c <= '\U{200A}' || c == '\U{2028}' || c == '\U{2029}' || c == '\U{202F}'
    || c == '\U{205F}' || c == '\U{3000}'
  }

  predicate KeyAt(text: string, g: Guardian, i: nat) {
    && i + 64 <= |text| && text[i..i + 64] == g
    && (forall k :: 0 <= k < i ==> Blank(text[k]))
    && (forall k :: i + 64 <= k < |text| ==> Blank(text[k]))
  }

  // Trimmed, the text is this guardian's key.
  predicate ReadsAs(text: string, g: Guardian) {
    exists i :: 0 <= i <= |text| && KeyAt(text, g, i)
  }

  lemma ReadsAsOne(text: string, g: Guardian, h: Guardian)
    requires ReadsAs(text, g) && ReadsAs(text, h)
    ensures g == h
  {
    var i :| 0 <= i <= |text| && KeyAt(text, g, i);
    var j :| 0 <= j <= |text| && KeyAt(text, h, j);
    assert KeyChar(g[0]) && text[i] == g[0];
    assert KeyChar(h[0]) && text[j] == h[0];
    assert !Blank(text[i]) && !Blank(text[j]);
  }

  lemma KeyReadsAsItself(g: Guardian)
    ensures ReadsAs(g, g)
  {
    assert g[0..64] == g;
    assert KeyAt(g, g, 0);
  }

  // A marker cut short names nobody.
  lemma TornMarkerNamesNobody(g: Guardian, landed: nat, h: Guardian)
    requires landed < 64
    ensures !ReadsAs(g[..landed], h)
  {
  }

  // A regular file: its text, and whose link wrote it (None: an earlier version's).
  datatype File = File(text: string, writer: Option<Guardian>)

  // The regular files directly in a directory; sub-directories are never touched.
  type Dir = map<string, File>

  predicate Names(d: Dir, g: Guardian) { OWNER_FILE in d && ReadsAs(d[OWNER_FILE].text, g) }

  predicate AllBy(d: Dir, g: Guardian) {
    forall n :: n in d && n != OWNER_FILE ==> d[n].writer == Some(g)
  }

  // A marker that reads as a guardian means every other file is that guardian's.
  ghost predicate Sound(d: Dir) {
    forall g: Guardian :: Names(d, g) ==> AllBy(d, g)
  }

  // What a claim leaves: the guardian's own files, or a fresh marker alone.
  function OwnedBy(g: Guardian, was: Dir): Dir {
    if Names(was, g) then was else map[OWNER_FILE := File(g, Some(g))]
  }

  // What the disk does: whether the directory can be made, which files can be
  // removed, after how many removals the process dies, and how much of the marker lands.
  datatype Disk = Disk(mkdir: bool, removable: string -> bool, steps: nat, landed: nat)

  predicate DiesEmptied(d: Dir, disk: Disk) {
    (forall n :: n in d ==> disk.removable(n)) && disk.steps == |d.Keys|
  }

  datatype Claim = Claimed | Stopped

  datatype Running = Running(guardian: Guardian, dir: string)

  datatype Started = Kept | Fresh | NoState | NotListening

  class Carrier {
    var dirs: map<string, Dir>
    var running: Option<Running>

    ghost predicate Valid()
      reads this
    {
      && (forall d :: d in dirs ==> Sound(dirs[d]))
      && (running.Some? ==> running.value.dir in dirs && Names(dirs[running.value.dir], running.value.guardian))
    }

    constructor (onDisk: map<string, Dir>)
      requires forall d :: d in onDisk ==> Sound(onDisk[d])
      ensures Valid() && dirs == onDisk && running == None
    {
      dirs, running := onDisk, None;
    }

    // Make `dir` this guardian's. `Stopped` is an error or a crash, at any point.
    method ClaimStateDir(dir: string, g: Guardian, disk: Disk) returns (r: Claim)
      requires Valid() && running.None?
      modifies this`dirs
      ensures Valid()
      ensures forall d :: d != dir ==> (d in dirs <==> d in old(dirs)) && (d in dirs ==> dirs[d] == old(dirs[d]))
      ensures r.Claimed? ==> dir in dirs && Names(dirs[dir], g) && AllBy(dirs[dir], g)
      ensures r.Claimed? ==> dirs[dir] == OwnedBy(g, if dir in old(dirs) then old(dirs)[dir] else map[])
      // A process that dies right after the last deletion leaves the directory empty.
      ensures dir in old(dirs) && !Names(old(dirs)[dir], g) && DiesEmptied(old(dirs)[dir], disk) ==>
        r.Stopped? && dir in dirs && dirs[dir] == map[]
      ensures r.Stopped? && dir in dirs ==>
        forall n :: n in dirs[dir] && n != OWNER_FILE ==> dir in old(dirs) && n in old(dirs)[dir] && dirs[dir][n] == old(dirs)[dir][n]
    {
      if dir !in dirs {
        if !disk.mkdir { return Stopped; }
        dirs := dirs[dir := map[]];
      }
      if Names(dirs[dir], g) { return Claimed; }
      var cleared, steps := ClearDir(dir, disk);
      // The process may die on an emptied directory, before there is a marker.
      if !cleared || steps == disk.steps { return Stopped; }
      if disk.landed < 64 {
        TornIsSound(g, disk.landed);
        dirs := dirs[dir := map[OWNER_FILE := File(g[..disk.landed], Some(g))]];
        return Stopped;
      }
      KeyReadsAsItself(g);
      MarkedIsSound(g);
      dirs := dirs[dir := map[OWNER_FILE := File(g, Some(g))]];
      return Claimed;
    }

    // Delete every file, the marker included, in whatever order the directory is
    // read, until one cannot be deleted or the process dies.
    method ClearDir(dir: string, disk: Disk) returns (cleared: bool, steps: nat)
      requires Valid() && running.None? && dir in dirs
      modifies this`dirs
      ensures Valid() && dirs.Keys == old(dirs).Keys
      ensures forall d :: d in dirs && d != dir ==> dirs[d] == old(dirs)[d]
      ensures dir in dirs && forall n :: n in dirs[dir] ==> n in old(dirs)[dir] && dirs[dir][n] == old(dirs)[dir][n]
      ensures (forall n :: n in old(dirs)[dir] ==> disk.removable(n)) && disk.steps >= |old(dirs)[dir].Keys| ==> cleared
      ensures cleared ==> dirs[dir] == map[] && steps == |old(dirs)[dir].Keys|
    {
      ghost var was := dirs;
      var todo := dirs[dir].Keys;
      steps := 0;
      while todo != {}
        invariant dirs.Keys == was.Keys
        invariant forall d :: d in dirs && d != dir ==> dirs[d] == was[d]
        invariant dirs[dir].Keys == todo <= was[dir].Keys
        invariant forall n :: n in dirs[dir] ==> dirs[dir][n] == was[dir][n]
        invariant Sound(dirs[dir]) && steps + |todo| == |was[dir].Keys|
        decreases todo
      {
        var n :| n in todo;
        if steps == disk.steps || !disk.removable(n) { return false, steps; }
        FewerFilesStaySound(dirs[dir], n);
        dirs := dirs[dir := dirs[dir] - {n}];
        todo := todo - {n};
        steps := steps + 1;
      }
      cleared := true;
    }

    // Keep the link serving this guardian from this directory, or replace it.
    method Start(dir: string, g: Guardian, disk: Disk, listens: bool) returns (r: Started)
      requires Valid()
      modifies this
      ensures Valid()
      ensures r.Kept? || r.Fresh? ==>
        running == Some(Running(g, dir)) && dir in dirs && AllBy(dirs[dir], g)
      ensures r.Kept? <==> old(running) == Some(Running(g, dir))
      ensures r.Kept? ==> dirs == old(dirs)
      ensures !r.Kept? && !r.Fresh? ==> running == None
      ensures forall d :: d != dir ==> (d in dirs <==> d in old(dirs)) && (d in dirs ==> dirs[d] == old(dirs[d]))
    {
      if running == Some(Running(g, dir)) {
        assert Names(dirs[dir], g);
        return Kept;
      }
      running := None;
      var c := ClaimStateDir(dir, g, disk);
      if c.Stopped? { return NoState; }
      if !listens { return NotListening; }
      running := Some(Running(g, dir));
      r := Fresh;
    }

    method Stop()
      requires Valid()
      modifies this`running
      ensures Valid() && running == None
    {
      running := None;
    }

    // The running link writes one of its own files; a link that was shut down writes none.
    method LinkWrites(name: string, text: string)
      requires Valid() && running.Some? && name != OWNER_FILE
      modifies this`dirs
      ensures Valid()
      ensures dirs == old(dirs)[running.value.dir := old(dirs)[running.value.dir][name := File(text, Some(running.value.guardian))]]
    {
      var d := running.value.dir;
      WritingStaysSound(dirs[d], name, text, running.value.guardian);
      dirs := dirs[d := dirs[d][name := File(text, Some(running.value.guardian))]];
    }

    // A whole life of the process and its restarts: every start that comes up, or
    // stays up, does so on files of its own guardian only.
    method Live(calls: seq<Call>) returns (served: seq<(Guardian, Dir)>)
      requires Valid()
      modifies this
      ensures Valid()
      ensures forall k :: 0 <= k < |served| ==> AllBy(served[k].1, served[k].0)
    {
      served := [];
      for i := 0 to |calls|
        invariant Valid()
        invariant forall k :: 0 <= k < |served| ==> AllBy(served[k].1, served[k].0)
      {
        match calls[i]
        case CallStart(dir, g, disk, listens) =>
          var r := Start(dir, g, disk, listens);
          if r.Kept? || r.Fresh? { served := served + [(g, dirs[dir])]; }
        case CallWrite(name, text) =>
          if running.Some? && name != OWNER_FILE { LinkWrites(name, text); }
        case CallStop =>
          Stop();
        // The process dies: the link with it, nothing on disk.
        case Crash =>
          running := None;
      }
    }
  }

  datatype Call =
    | CallStart(dir: string, g: Guardian, disk: Disk, listens: bool)
    | CallWrite(name: string, text: string)
    | CallStop
    | Crash

  lemma TornIsSound(g: Guardian, landed: nat)
    requires landed < 64
    ensures Sound(map[OWNER_FILE := File(g[..landed], Some(g))])
  {
  }

  lemma MarkedIsSound(g: Guardian)
    ensures Sound(map[OWNER_FILE := File(g, Some(g))])
  {
  }

  // Deleting any one file, the marker or another's, keeps a directory sound.
  lemma FewerFilesStaySound(d: Dir, n: string)
    requires Sound(d)
    ensures Sound(d - {n})
  {
    forall g: Guardian | Names(d - {n}, g) ensures AllBy(d - {n}, g) {
      assert Names(d, g);
    }
  }

  lemma WritingStaysSound(d: Dir, name: string, text: string, g: Guardian)
    requires Sound(d) && Names(d, g) && name != OWNER_FILE
    ensures Sound(d[name := File(text, Some(g))]) && Names(d[name := File(text, Some(g))], g)
  {
    var e := d[name := File(text, Some(g))];
    forall h: Guardian | Names(e, h) ensures AllBy(e, h) {
      ReadsAsOne(d[OWNER_FILE].text, g, h);
      assert Names(d, h);
    }
  }
}
