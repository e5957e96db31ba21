/** The tunnel store: heap records behind a mutex, written to disk after each change
  * by writing a temporary file and renaming it over the old one.
  */
module TunnelStore {
  import opened Options
  import opened Records

  // ---- The disk ----

  /** Contents of a file.  Encoding and parsing are inverse on whole files; a torn
    * file does not parse. */
  datatype Blob = Absent | Torn | Whole(rs: seq<Record>)

  datatype DiskState = DiskState(file: Blob, tmp: Blob)

  /** What Open would load from a disk state; an absent store opens as an empty one. */
  function Recover(d: DiskState): Option<seq<Record>> {
    match d.file
    case Absent => Some([])
    case Whole(rs) => Some(rs)
    case Torn => None
  }

  /** One flush: what it wrote, whether it succeeded and how long the trace was after. */
  datatype FlushRun = FlushRun(content: seq<Record>, ok: bool, end: nat)

  /** What the store's file shows after some flushes: the last that succeeded. */
  function Shown(origin: Blob, runs: seq<FlushRun>): Blob {
    if runs == [] then origin
    else if runs[|runs| - 1].ok then Whole(runs[|runs| - 1].content)
    else Shown(origin, runs[..|runs| - 1])
  }

  function End(runs: seq<FlushRun>): nat { if runs == [] then 1 else runs[|runs| - 1].end }

  /** A trace made by these flushes: during each one the file shows what it showed
    * before or all that is being written. */
  ghost predicate Flushes(trace: seq<DiskState>, origin: Blob, runs: seq<FlushRun>) {
    if runs == [] then |trace| >= 1 && trace[0].file == origin
    else
      var before, last := runs[..|runs| - 1], runs[|runs| - 1];
      Flushes(trace, origin, before) && last.end <= |trace|
      && AllOrNothing(trace[..last.end], End(before), Shown(origin, before), last.content)
  }

  /** `trace` holds every state the disk has been in: the states a crash can leave.
    * `flushes` is the history of the store that owns the disk; on a reliable disk no
    * write and no rename fails. */
  class Disk {
    var state: DiskState
    var trace: seq<DiskState>
    ghost var flushes: seq<FlushRun>
    ghost const origin: Blob
    const reliable: bool

    ghost predicate Valid()
      reads this
    {
      && Flushes(trace, origin, flushes) && End(flushes) == |trace| >= 1
      && state == trace[|trace| - 1] && state.file == Shown(origin, flushes)
    }

    constructor (state: DiskState, reliable: bool)
      ensures Valid() && this.state == state && trace == [state] && flushes == [] && origin == state.file
      ensures this.reliable == reliable
    {
      this.reliable := reliable;
      this.state := state;
      trace := [state];
      flushes := [];
      origin := state.file;
    }

    method Put(d: DiskState)
      modifies this`state, this`trace
      ensures state == d && trace == old(trace) + [d]
    {
      state := d;
      trace := trace + [d];
    }

    /** os.WriteFile on the temporary file: it may fail before or after truncating,
      * and is torn in between. */
    method WriteTemp(rs: seq<Record>) returns (ok: bool)
      modifies this`state, this`trace
      ensures old(trace) <= trace
      ensures forall k :: |old(trace)| <= k < |trace| ==> trace[k].file == old(state).file
      ensures state.file == old(state).file
      ensures trace == old(trace) || (|trace| >= 1 && state == trace[|trace| - 1])
      ensures trace == old(trace) ==> state == old(state)
      ensures ok ==> state.tmp == Whole(rs)
      ensures reliable ==> ok
    {
      var created: bool, written: bool := *, *;
      if !created && !reliable {
        return false;
      }
      Put(state.(tmp := Torn));
      if !written && !reliable {
        return false;
      }
      Put(state.(tmp := Whole(rs)));
      return true;
    }

    /** os.Rename of the temporary file over the store: all or nothing. */
    method Rename() returns (ok: bool)
      modifies this`state, this`trace
      ensures ok ==> state == DiskState(old(state).tmp, Absent) && trace == old(trace) + [state]
      ensures !ok ==> state == old(state) && trace == old(trace) && !reliable
    {
      var works: bool := *;
      if !works && !reliable {
        return false;
      }
      Put(DiskState(state.tmp, Absent));
      return true;
    }
  }

  /** Every state of the trace from n on shows either the old file or the new one. */
  ghost predicate AllOrNothing(trace: seq<DiskState>, n: nat, before: Blob, after: seq<Record>) {
    n <= |trace| && forall k :: n <= k < |trace| ==> trace[k].file == before || trace[k].file == Whole(after)
  }

  lemma {:induction false} FlushesLonger(trace: seq<DiskState>, origin: Blob, runs: seq<FlushRun>,
                                         longer: seq<DiskState>)
    requires Flushes(trace, origin, runs) && trace <= longer
    ensures Flushes(longer, origin, runs)
  {
    if runs != [] {
      FlushesLonger(trace, origin, runs[..|runs| - 1], longer);
      var end := runs[|runs| - 1].end;
      assert longer[..end] == trace[..end];
    }
  }

  lemma FlushesGrow(trace: seq<DiskState>, origin: Blob, runs: seq<FlushRun>, longer: seq<DiskState>,
                    content: seq<Record>, ok: bool)
    requires Flushes(trace, origin, runs) && End(runs) == |trace| && trace <= longer
    requires AllOrNothing(longer, |trace|, Shown(origin, runs), content)
    ensures var more := runs + [FlushRun(content, ok, |longer|)];
            Flushes(longer, origin, more) && End(more) == |longer|
            && Shown(origin, more) == if ok then Whole(content) else Shown(origin, runs)
  {
    hide AllOrNothing;
    FlushesLonger(trace, origin, runs, longer);
    var more := runs + [FlushRun(content, ok, |longer|)];
    assert more[..|more| - 1] == runs && longer[..|longer|] == longer;
  }

  /** How many flushes had ended when the trace had k + 1 states. */
  function Ended(runs: seq<FlushRun>, k: nat): (j: nat)
    ensures j <= |runs|
  {
    if runs == [] then 0
    else if runs[|runs| - 1].end <= k then |runs|
    else Ended(runs[..|runs| - 1], k)
  }

  /** Over a whole run of the store: a crash at any point leaves exactly what the last
    * successful flush before it wrote, or all that the flush in progress was writing. */
  lemma {:induction false} CrashRecovers(trace: seq<DiskState>, origin: Blob, runs: seq<FlushRun>, k: nat)
    requires Flushes(trace, origin, runs) && k < End(runs)
    ensures var j := Ended(runs, k);
            k < |trace| && (Recover(trace[k]) == Recover(DiskState(Shown(origin, runs[..j]), Absent))
                            || (j < |runs| && Recover(trace[k]) == Some(runs[j].content)))
  {
    if runs != [] {
      var n := |runs| - 1;
      var before, last := runs[..n], runs[n];
      assert Flushes(trace, origin, before) && last.end <= |trace|;
      EndAtMost(trace, origin, before);
      if k < End(before) {
        CrashRecovers(trace, origin, before, k);
        assert Ended(runs, k) == Ended(before, k);
        assert before[..Ended(before, k)] == runs[..Ended(before, k)];
      } else {
        AllEnded(before, k);
        assert trace[k] == trace[..last.end][k];
      }
    }
  }

  lemma {:induction false} EndAtMost(trace: seq<DiskState>, origin: Blob, runs: seq<FlushRun>)
    requires Flushes(trace, origin, runs)
    ensures 1 <= End(runs) <= |trace|
  {
    if runs != [] {
      EndAtMost(trace, origin, runs[..|runs| - 1]);
    }
  }

  lemma AllEnded(runs: seq<FlushRun>, k: nat)
    requires k >= End(runs)
    ensures Ended(runs, k) == |runs|
  {
  }

  // ---- The store ----

  /** A tunnel struct on the heap. */
  class Tunnel {
    var rec: Record

    constructor (rec: Record)
      ensures this.rec == rec
    {
      this.rec := rec;
    }
  }

  function Recs(ts: seq<Tunnel>): seq<Record>
    reads ts
  {
    seq(|ts|, i requires 0 <= i < |ts| reads ts => ts[i].rec)
  }

  datatype Outcome = Done | NotFound | FlushFailed

  datatype Opened = Ready(s: Store) | Failed

  /** A slice of tunnel pointers: the first `len` elements of a backing array. */
  class Store {
    const disk: Disk
    var elems: array<Tunnel>
    var len: nat

    ghost predicate Valid()
      reads this, disk
    {
      len <= elems.Length && disk.Valid()
    }

    function Tunnels(): seq<Tunnel>
      requires len <= elems.Length
      reads this, elems
    {
      elems[..len]
    }

    function Contents(): seq<Record>
      requires len <= elems.Length
      reads this, elems, elems[..len]
    {
      Recs(Tunnels())
    }

    /** The objects in the store are its own: nothing handed out is among them. */
    ghost predicate Private(t: Tunnel)
      requires len <= elems.Length
      reads this, elems
    {
      t !in Tunnels()
    }

    constructor (disk: Disk)
      requires disk.Valid()
      ensures Valid() && this.disk == disk && Contents() == [] && fresh(elems)
    {
      this.disk := disk;
      elems := new Tunnel[0];
      len := 0;
    }

    /** append(s, t): in place while there is room, otherwise into a larger array. */
    method Push(t: Tunnel)
      requires len <= elems.Length
      modifies this`elems, this`len, elems
      ensures len <= elems.Length && Tunnels() == old(Tunnels()) + [t]
      ensures elems == old(elems) || fresh(elems)
    {
      if len == elems.Length {
        var more := new Tunnel[2 * len + 1](_ => t);
        for i := 0 to len
          invariant unchanged(this) && unchanged(elems)
          invariant forall k :: 0 <= k < i ==> more[k] == elems[k]
          invariant forall k :: i <= k < more.Length ==> more[k] == t
        {
          more[i] := elems[i];
        }
        assert more[..len] == elems[..len];
        elems := more;
      } else {
        elems[len] := t;
      }
      assert elems[..len] == old(Tunnels()) && elems[len] == t;
      len := len + 1;
    }

    /** append(s[:i], s[i+1:]...): the later elements move down by one. */
    method Cut(i: nat)
      requires i < len <= elems.Length
      modifies this`len, elems
      ensures len <= elems.Length && Tunnels() == old(Tunnels())[..i] + old(Tunnels())[i + 1..]
    {
      for j := i to len - 1
        invariant unchanged(this)
        invariant forall k :: 0 <= k < i ==> elems[k] == old(elems[k])
        invariant forall k :: i <= k < j ==> elems[k] == old(elems[k + 1])
        invariant forall k :: j <= k < elems.Length ==> elems[k] == old(elems[k])
      {
        elems[j] := elems[j + 1];
      }
      len := len - 1;
    }

    /** Loads the store, or creates it when there is no file; `readable` says whether an
      * existing file can be read. */
    static method Open(disk: Disk, readable: bool) returns (r: Opened)
      requires disk.Valid()
      modifies disk
      ensures disk.Valid()
      ensures r.Ready? ==> fresh(r.s) && fresh(r.s.elems) && r.s.disk == disk && r.s.Valid()
                           && fresh(set t | t in r.s.Tunnels())
                           && Some(r.s.Contents()) == Recover(old(disk.state))
      ensures r.Ready? ==> disk.state.file == Whole(r.s.Contents())
      ensures old(disk.state).file == Torn ==> r.Failed?
      ensures old(disk.state).file.Whole? && readable ==> r.Ready?
      ensures old(disk.state).file.Absent? && disk.reliable ==> r.Ready?
      ensures !old(disk.state).file.Absent? ==> disk.state == old(disk.state) && disk.flushes == old(disk.flushes)
      ensures old(disk.state).file.Absent? ==>
                disk.flushes == old(disk.flushes) + [FlushRun([], r.Ready?, |disk.trace|)]
    {
      if disk.state.file.Absent? {
        var s := new Store(disk);
        var ok := s.Flush();
        assert s.Contents() == [];
        return if ok then Ready(s) else Failed;
      }
      if !readable || disk.state.file == Torn {
        return Failed;
      }
      var s := new Store(disk);
      var rs := disk.state.file.rs;
      for i := 0 to |rs|
        invariant fresh(s) && fresh(s.elems) && s.disk == disk && unchanged(disk)
        invariant s.Valid() && fresh(set t | t in s.Tunnels())
        invariant |s.Tunnels()| == i && forall k :: 0 <= k < i ==> s.Tunnels()[k].rec == rs[k]
      {
        var t := new Tunnel(rs[i]);
        s.Push(t);
      }
      assert s.Contents() == rs;
      return Ready(s);
    }

    /** Writes the store to disk: afterwards the disk shows all of it, or what it
      * showed before when a step failed; at no step anything else. */
    method Flush() returns (ok: bool)
      requires Valid()
      modifies disk
      ensures Valid() && old(disk.trace) <= disk.trace
      ensures disk.reliable ==> ok
      ensures disk.state.file == if ok then Whole(Contents()) else old(disk.state).file
      ensures AllOrNothing(disk.trace, |old(disk.trace)|, old(disk.state).file, Contents())
      ensures disk.flushes == old(disk.flushes) + [FlushRun(Contents(), ok, |disk.trace|)]
    {
      hide Flushes, Shown, End, Recs;
      ok := disk.WriteTemp(Contents());
      if ok {
        ok := disk.Rename();
      }
      FlushesGrow(old(disk.trace), disk.origin, disk.flushes, disk.trace, Contents(), ok);
      disk.flushes := disk.flushes + [FlushRun(Contents(), ok, |disk.trace|)];
    }

    /** A fresh copy of the first tunnel with an id. */
    method Get(id: string) returns (r: Option<Tunnel>)
      requires Valid()
      ensures r.None? <==> Lookup(Contents(), id).None?
      ensures r.Some? ==> fresh(r.value) && Private(r.value) && Lookup(Contents(), id) == Some(r.value.rec)
    {
      for i := 0 to len
        invariant forall k :: 0 <= k < i ==> Contents()[k].id != id
      {
        if elems[i].rec.id == id {
          assert Contents()[i].id == id;
          var cp := new Tunnel(elems[i].rec);
          return Some(cp);
        }
      }
      return None;
    }

    /** Fresh copies of all tunnels, ordered by creation time. */
    method List() returns (out: seq<Tunnel>)
      requires Valid()
      ensures fresh(set t | t in out) && forall t :: t in out ==> Private(t)
      ensures multiset(Recs(out)) == multiset(Contents()) && SortedByCreation(Recs(out))
    {
      var sorted := SortRecords(Contents());
      SortIs(Contents());
      hide SortRecords, SortedByCreation;
      out := [];
      for i := 0 to |sorted|
        invariant fresh(set t | t in out) && |out| == i
        invariant forall k :: 0 <= k < i ==> out[k].rec == sorted[k]
        invariant forall t :: t in out ==> Private(t)
      {
        var cp := new Tunnel(sorted[i]);
        out := out + [cp];
      }
      assert Recs(out) == sorted;
    }

    /** Appends a copy of t, after giving t an id, if it has none, and a creation
      * time.  The list changes in memory even when the flush fails. */
    method AddTunnel(t: Tunnel, newId: string, now: int) returns (r: Option<Tunnel>)
      requires Valid() && Private(t)
      modifies this, elems, t, disk
      ensures Valid() && (elems == old(elems) || fresh(elems))
      ensures t.rec == old(t.rec).(id := if old(t.rec).id == "" then newId else old(t.rec).id, createdAt := now)
      ensures Private(t) && Contents() == Added(old(Contents()), t.rec)
      ensures forall x :: x in Tunnels() ==> x in old(Tunnels()) || fresh(x)
      ensures r.Some? ==> fresh(r.value) && Private(r.value) && r.value.rec == t.rec
      ensures disk.reliable ==> r.Some?
      ensures disk.state.file == if r.Some? then Whole(Contents()) else old(disk.state).file
      ensures disk.flushes == old(disk.flushes) + [FlushRun(Contents(), r.Some?, |disk.trace|)]
    {
      hide Flushes, Shown, End, AllOrNothing, Disk.Valid;
      if t.rec.id == "" {
        t.rec := t.rec.(id := newId);
      }
      t.rec := t.rec.(createdAt := now);
      var cp := new Tunnel(t.rec);
      Push(cp);
      assert Contents() == Added(old(Contents()), t.rec);
      hide Recs, Added;
      var ok := Flush();
      if !ok {
        return None;
      }
      var out := new Tunnel(cp.rec);
      return Some(out);
    }

    /** Replaces the first tunnel with t's id by a copy of t that keeps the place and
      * the creation time. */
    method UpdateTunnel(t: Tunnel) returns (r: Outcome)
      requires Valid() && Private(t)
      modifies elems, t, disk
      ensures Valid() && Private(t) && Contents() == Updated(old(Contents()), old(t.rec))
      ensures t.rec == (match Lookup(Contents(), old(t.rec).id) case Some(x) => x case None => old(t.rec))
      ensures forall x :: x in Tunnels() ==> x in old(Tunnels()) || fresh(x)
      ensures r == NotFound <==> !Has(old(Contents()), old(t.rec).id)
      ensures disk.reliable ==> r != FlushFailed
      ensures disk.state.file == if r == Done then Whole(Contents()) else old(disk.state).file
      ensures disk.flushes ==
              old(disk.flushes) + if r == NotFound then [] else [FlushRun(Contents(), r == Done, |disk.trace|)]
    {
      hide Flushes, Shown, End, AllOrNothing, Disk.Valid;
      for i := 0 to len
        invariant unchanged(elems) && unchanged(t) && unchanged(disk)
        invariant forall k :: 0 <= k < i ==> Contents()[k].id != t.rec.id
      {
        if elems[i].rec.id == t.rec.id {
          assert Contents()[i].id == t.rec.id;
          FoundAt(Contents(), t.rec.id, i);
          r := ReplaceAt(i, t);
          return;
        }
      }
      return NotFound;
    }

    /** Puts a copy of t at position i, with the creation time of the tunnel there. */
    method ReplaceAt(i: nat, t: Tunnel) returns (r: Outcome)
      requires Valid() && Private(t) && i < len && IndexOf(Contents(), t.rec.id) == i
      modifies elems, t, disk
      ensures Valid() && Private(t) && r != NotFound && (disk.reliable ==> r == Done)
      ensures t.rec == old(t.rec).(createdAt := old(Contents())[i].createdAt)
      ensures Contents() == Updated(old(Contents()), old(t.rec)) && Lookup(Contents(), t.rec.id) == Some(t.rec)
      ensures forall x :: x in Tunnels() ==> x in old(Tunnels()) || fresh(x)
      ensures disk.state.file == if r == Done then Whole(Contents()) else old(disk.state).file
      ensures disk.flushes == old(disk.flushes) + [FlushRun(Contents(), r == Done, |disk.trace|)]
    {
      hide Flushes, Shown, End, AllOrNothing, Disk.Valid;
      t.rec := t.rec.(createdAt := elems[i].rec.createdAt);
      var cp := new Tunnel(t.rec);
      elems[i] := cp;
      assert Tunnels() == old(Tunnels())[i := cp];
      assert Contents() == old(Contents())[i := t.rec];
      FoundAt(Contents(), t.rec.id, i);
      hide IndexOf, Recs;
      var ok := Flush();
      return if ok then Done else FlushFailed;
    }

    /** Removes the first tunnel with an id; the ones after it move down. */
    method DeleteTunnel(id: string) returns (r: Outcome)
      requires Valid()
      modifies this`len, elems, disk
      ensures Valid() && Contents() == Deleted(old(Contents()), id)
      ensures forall x :: x in Tunnels() ==> x in old(Tunnels())
      ensures r == NotFound <==> !Has(old(Contents()), id)
      ensures disk.reliable ==> r != FlushFailed
      ensures disk.state.file == if r == Done then Whole(Contents()) else old(disk.state).file
      ensures disk.flushes ==
              old(disk.flushes) + if r == NotFound then [] else [FlushRun(Contents(), r == Done, |disk.trace|)]
    {
      hide Flushes, Shown, End, AllOrNothing, Disk.Valid;
      for i := 0 to len
        invariant unchanged(this) && unchanged(elems) && unchanged(disk)
        invariant forall k :: 0 <= k < i ==> Contents()[k].id != id
      {
        if elems[i].rec.id == id {
          assert Contents()[i].id == id;
          FoundAt(Contents(), id, i);
          r := RemoveAt(i);
          return;
        }
      }
      return NotFound;
    }

    method RemoveAt(i: nat) returns (r: Outcome)
      requires Valid() && i < len
      modifies this`len, elems, disk
      ensures Valid() && r != NotFound && (disk.reliable ==> r == Done)
      ensures Contents() == old(Contents())[..i] + old(Contents())[i + 1..]
      ensures forall x :: x in Tunnels() ==> x in old(Tunnels())
      ensures disk.state.file == if r == Done then Whole(Contents()) else old(disk.state).file
      ensures disk.flushes == old(disk.flushes) + [FlushRun(Contents(), r == Done, |disk.trace|)]
    {
      hide Flushes, Shown, End, AllOrNothing, Disk.Valid;
      Cut(i);
      assert Contents() == old(Contents())[..i] + old(Contents())[i + 1..];
      hide Recs;
      var ok := Flush();
      return if ok then Done else FlushFailed;
    }

    /** Any operations one after the other, whether or not their flushes succeed: the
      * heap store goes through what the list of records does and, when the ids of adds
      * are new, behaves as an insertion-ordered map. */
    method Perform(ops: seq<Op>)
      requires Valid()
      modifies this, elems, disk
      ensures Valid() && Contents() == RunList(old(Contents()), ops)
      ensures UniqueIds(old(Contents())) && FreshIds(old(Contents()), ops) ==>
                UniqueIds(Contents()) && Abs(Contents()) == RunMap(Abs(old(Contents())), ops)
    {
      hide Flushes, Shown, End, AllOrNothing, Disk.Valid, UniqueIds, FreshIds, Abs, RunMap, ApplyList;
      for i := 0 to |ops|
        invariant Valid() && (elems == old(elems) || fresh(elems))
        invariant Contents() == RunList(old(Contents()), ops[..i])
      {
        assert ops[..i + 1][..i] == ops[..i];
        PerformOne(ops[i]);
      }
      assert ops[..|ops|] == ops;
      if UniqueIds(old(Contents())) && FreshIds(old(Contents()), ops) {
        ListRefinesMap(old(Contents()), ops);
      }
    }

    method PerformOne(op: Op)
      requires Valid()
      modifies this, elems, disk
      ensures Valid() && (elems == old(elems) || fresh(elems))
      ensures Contents() == ApplyList(old(Contents()), op)
    {
      hide Flushes, Shown, End, AllOrNothing, Disk.Valid, Added, Updated, Deleted;
      match op {
        case Add(r) =>
          var t := new Tunnel(r.(id := ""));
          var added := AddTunnel(t, r.id, r.createdAt);
          assert t.rec == r;
        case Update(r) =>
          var t := new Tunnel(r);
          var done := UpdateTunnel(t);
        case Delete(id) =>
          var done := DeleteTunnel(id);
      }
    }
  }

  lemma {:induction false} ShownNotTorn(origin: Blob, runs: seq<FlushRun>)
    requires origin != Torn
    ensures Shown(origin, runs) != Torn
  {
    if runs != [] {
      ShownNotTorn(origin, runs[..|runs| - 1]);
    }
  }

  /** The process dies when the disk is in the state at position k of its trace, and the
    * store is opened again: it holds exactly what the last successful flush wrote, or
    * all that the flush in progress was writing; and it opens, if its file can be read. */
  method CrashAndOpen(disk: Disk, k: nat, readable: bool) returns (r: Opened)
    requires disk.Valid() && k < |disk.trace|
    ensures var j := Ended(disk.flushes, k);
            var last := Recover(DiskState(Shown(disk.origin, disk.flushes[..j]), Absent));
            && (r.Ready? ==> r.s.Valid())
            && (r.Ready? ==> Some(r.s.Contents()) == last
                             || (j < |disk.flushes| && r.s.Contents() == disk.flushes[j].content))
            && (disk.origin != Torn && readable && (disk.trace[k].file.Absent? ==> disk.reliable) ==> r.Ready?)
  {
    CrashRecovers(disk.trace, disk.origin, disk.flushes, k);
    if disk.origin != Torn {
      ShownNotTorn(disk.origin, disk.flushes[..Ended(disk.flushes, k)]);
    }
    hide Flushes, End, Shown;
    var found := new Disk(disk.trace[k], disk.reliable);
    r := Store.Open(found, readable);
  }

  lemma FoundAt(rs: seq<Record>, id: string, i: nat)
    requires i < |rs| && rs[i].id == id && forall k :: 0 <= k < i ==> rs[k].id != id
    ensures IndexOf(rs, id) == i && Has(rs, id) && Lookup(rs, id) == Some(rs[i])
  {
  }

  /** A stand-in for sort.Slice by creation time, of which callers may use that the
    * result is sorted and a permutation. */
  function SortRecords(rs: seq<Record>): seq<Record> {
    if rs == [] then [] else Insert(SortRecords(rs[..|rs| - 1]), rs[|rs| - 1])
  }

  function Insert(rs: seq<Record>, r: Record): seq<Record> {
    if rs == [] || rs[|rs| - 1].createdAt <= r.createdAt then rs + [r]
    else Insert(rs[..|rs| - 1], r) + [rs[|rs| - 1]]
  }

  lemma SnocSorted(rs: seq<Record>, last: Record)
    requires SortedByCreation(rs) && forall x :: x in multiset(rs) ==> x.createdAt <= last.createdAt
    ensures SortedByCreation(rs + [last])
  {
    assert forall i :: 0 <= i < |rs| ==> rs[i] in multiset(rs);
  }

  lemma BelowLast(rs: seq<Record>)
    requires rs != [] && SortedByCreation(rs)
    ensures forall x :: x in multiset(rs) ==> x.createdAt <= rs[|rs| - 1].createdAt
    ensures SortedByCreation(rs[..|rs| - 1])
    ensures multiset(rs) == multiset(rs[..|rs| - 1]) + multiset{rs[|rs| - 1]}
  {
    forall x | x in multiset(rs) ensures x.createdAt <= rs[|rs| - 1].createdAt {
      var i :| 0 <= i < |rs| && rs[i] == x;
    }
    assert rs == rs[..|rs| - 1] + [rs[|rs| - 1]];
  }

  lemma {:induction false} InsertSorted(rs: seq<Record>, r: Record)
    requires SortedByCreation(rs)
    ensures multiset(Insert(rs, r)) == multiset(rs) + multiset{r} && SortedByCreation(Insert(rs, r))
  {
    if rs != [] {
      hide SortedByCreation;
      var front, last := rs[..|rs| - 1], rs[|rs| - 1];
      BelowLast(rs);
      if last.createdAt <= r.createdAt {
        SnocSorted(rs, r);
      } else {
        InsertSorted(front, r);
        SnocSorted(Insert(front, r), last);
      }
    }
  }

  lemma {:induction false} SortIs(rs: seq<Record>)
    ensures multiset(SortRecords(rs)) == multiset(rs) && SortedByCreation(SortRecords(rs))
  {
    if rs != [] {
      hide SortedByCreation, Insert;
      var front, last := rs[..|rs| - 1], rs[|rs| - 1];
      assert rs == front + [last];
      SortIs(front);
      InsertSorted(SortRecords(front), last);
    }
  }
}
