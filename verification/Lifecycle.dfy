/** The panel's create, update, delete and action handlers over the stored tunnels
  * and the local systemd units, one external effect at a time, with any effect
  * failing and a crash possible after each.
  */
module Lifecycle {
  import opened Options
  import opened Records

  const REVERSE := "reverse"

  predicate IsReverse(r: Record) { r.mode == REVERSE }

  /** `mem` and `disk` are the stored list in memory and on disk; the sets are the
    * local unit files, the units that run, those that start on boot, and the tunnels that
    * have a stat file; `runs` has the settings a unit read from the store when it last
    * started; `stale` says that unit files have changed since systemd last loaded them.
    * The other fields are history, read by specifications only: whether the last flush
    * failed; the unit files that may lack a stored local tunnel; whether a tunnel with a
    * unit file was turned into a reverse one; whether any flush or unit-file deletion has
    * failed; and how many effects of any kind have. */
  datatype World = World(
    mem: seq<Record>, disk: seq<Record>,
    files: set<string>, active: set<string>, enabled: set<string>, stats: set<string>,
    runs: map<string, Option<Record>>, stale: bool,
    dirty: bool, orphans: set<string>, switched: bool, faults: bool, troubles: nat)

  predicate Owned(rs: seq<Record>, id: string) { Has(rs, id) && !IsReverse(Lookup(rs, id).value) }

  ghost predicate LocalIn(files: set<string>, rs: seq<Record>) {
    forall id :: id in files ==> Owned(rs, id)
  }

  /** Every local unit file but the orphans belongs to a stored local tunnel: in memory,
    * and on disk unless the last flush failed, so that a crash now makes no orphan.
    * There are no orphans without a mode switch or a fault. */
  ghost predicate Good(w: World) {
    && UniqueIds(w.mem) && UniqueIds(w.disk)
    && LocalIn(w.files - w.orphans, w.mem)
    && (!w.dirty ==> LocalIn(w.files - w.orphans, w.disk))
    && (w.dirty ==> w.faults)
    && (w.orphans != {} ==> w.switched || w.faults)
  }

  /** Between requests memory and disk agree unless the last flush failed. */
  ghost predicate Settled(w: World) {
    Good(w) && (!w.dirty ==> w.mem == w.disk)
  }

  ghost predicate SameElsewhere(w: World, v: World, id: string) {
    && v.files - {id} == w.files - {id}
    && v.active - {id} == w.active - {id}
    && v.enabled - {id} == w.enabled - {id}
    && v.orphans - {id} == w.orphans - {id}
    && v.stats - {id} == w.stats - {id}
    && v.runs - {id} == w.runs - {id}
  }

  ghost predicate SameUnits(w: World, v: World) {
    && v.files == w.files && v.active == w.active && v.enabled == w.enabled && v.orphans == w.orphans
    && v.stats == w.stats && v.runs == w.runs && v.stale == w.stale
  }

  lemma SameElsewhereOn(w: World, v: World, u: World, id: string)
    requires SameUnits(w, v)
    ensures SameElsewhere(w, v, id)
    ensures SameElsewhere(v, u, id) ==> SameElsewhere(w, u, id)
    ensures SameUnits(v, u) ==> SameElsewhere(w, u, id)
  {
  }

  lemma SameElsewhereThen(w: World, v: World, u: World, id: string)
    requires SameElsewhere(w, v, id) && SameElsewhere(v, u, id)
    ensures SameElsewhere(w, u, id)
  {
  }

  /** The unit runs, with the settings that are stored. */
  predicate UpToDate(w: World, id: string) {
    id in w.active && id in w.runs && w.runs[id] == Lookup(w.disk, id)
  }

  /** What a successful request leaves of a local tunnel's unit: its file, loaded, running
    * the stored settings and started on boot when the tunnel is enabled, and stopped and,
    * when no command failed, not started on boot when it is not. */
  predicate UnitFollows(w: World, t: Record, calm: bool) {
    && t.id in w.files && !w.stale && (t.id in w.active <==> t.enabled)
    && (if t.enabled then t.id in w.enabled && UpToDate(w, t.id) else calm ==> t.id !in w.enabled)
  }

  lemma FollowsHasFile(w: World, t: Record, calm: bool)
    requires UnitFollows(w, t, calm)
    ensures t.id in w.files
  {
  }

  /** Nothing is left running, to be started on boot, or shown of a removed unit. */
  predicate Gone(w: World, id: string) {
    id !in w.active && id !in w.enabled && id !in w.stats && !w.stale
  }

  ghost predicate SameStore(w: World, v: World) {
    v.mem == w.mem && v.disk == w.disk && v.dirty == w.dirty && v.switched == w.switched
  }

  /** Good states from position n on, none of them switched unless the last is. */
  ghost predicate AllGood(trace: seq<World>, n: nat, switched: bool) {
    n <= |trace| && forall k :: n <= k < |trace| ==> Good(trace[k]) && (trace[k].switched ==> switched)
  }

  lemma AllGoodOn(a: seq<World>, n: nat, b: seq<World>)
    requires a <= b
    ensures forall x, y, z :: AllGood(a, n, x) && AllGood(b, |a|, y) && (x || y ==> z) ==> AllGood(b, n, z)
  {
    hide Good;
    assert forall k :: 0 <= k < |a| ==> a[k] == b[k];
  }

  lemma GoodFromHere(trace: seq<World>, now: bool)
    ensures AllGood(trace, |trace|, now)
  {
  }

  datatype Verb = Enable | Disable | Start | Stop | Restart | DaemonReload

  datatype Status = OK | NotFound | BadRequest | ServerError

  datatype Saved = Done | Missing | FlushError

  /** A request body that decoded and validated. */
  datatype Input = Input(mode: string, enabled: bool, settings: Settings)

  /** A record with what a request body says, but for the keys resolved for it. */
  predicate Carries(t: Record, id: string, body: Input) {
    && t.id == id && t.mode == body.mode && t.enabled == body.enabled
    && t.settings == body.settings.(keys := t.settings.keys)
  }

  /** What a create stores until the keys are resolved. */
  function Placeholder(id: string, now: int): Record { Record(id, "", false, now, Settings("", "", "", [])) }

  /** The record that a body fills in, and its unit when that succeeded. */
  ghost predicate FilledIn(w: World, v: World, t: Record, id: string, body: Input, s: Status) {
    && Carries(t, id, body)
    && (s == OK && !IsReverse(t) ==> UnitFollows(v, t, v.troubles == w.troubles))
  }

  datatype ActionName = ActStart | ActStop | ActRestart | ActUnknown

  /** What reaches the panel; a create carries a newly generated id. */
  datatype Request =
    | ReqCreate(body: Option<Input>, newId: string, now: int)
    | ReqUpdate(id: string, body: Option<Input>)
    | ReqDelete(id: string)
    | ReqAction(id: string, action: ActionName)

  /** A request, and after how many of its effects the panel dies and starts again, if
    * it does. */
  datatype Turn = Turn(req: Request, crash: Option<nat>)

  /** An update that would turn a tunnel with a unit file into a reverse one. */
  predicate SwitchesIn(req: Request, w: World) {
    req.ReqUpdate? && req.body.Some? && req.body.value.mode == REVERSE && req.id in w.files
  }

  /** Some request of a run switches in the world in which it begins. */
  ghost predicate SomeSwitch(turns: seq<Turn>, starts: seq<World>) {
    exists i :: 0 <= i < |turns| && i < |starts| && SwitchesIn(turns[i].req, starts[i])
  }

  /** The panel process dies and starts again: memory is what the disk holds, the units
    * survive, and unit files without a local tunnel on disk are orphans. */
  function Reboot(w: World): World {
    w.(mem := w.disk, dirty := false, orphans := w.orphans + set id | id in w.files && !Owned(w.disk, id))
  }

  /** The status of a request of which no effect fails. */
  function Due(req: Request, rs: seq<Record>): Status {
    match req
    case ReqCreate(body, newId, _) =>
      if body.None? then BadRequest else if Has(rs, newId) then ServerError else OK
    case ReqUpdate(id, body) => if !Has(rs, id) then NotFound else if body.None? then BadRequest else OK
    case ReqDelete(id) => if Has(rs, id) then OK else NotFound
    case ReqAction(id, action) => if !Has(rs, id) then NotFound else if action.ActUnknown? then BadRequest else OK
  }

  /** What a successful request does to the stored list. */
  ghost predicate Stored(req: Request, rs: seq<Record>, done: seq<Record>) {
    match req
    case ReqCreate(body, newId, now) =>
      body.Some? && exists t :: done == Added(rs, t) && Carries(t, newId, body.value) && t.createdAt == now
    case ReqUpdate(id, body) => body.Some? && exists t :: done == Updated(rs, t) && Carries(t, id, body.value)
    case ReqDelete(id) => done == Deleted(rs, id)
    case ReqAction(id, action) =>
      match action
      case ActStart => Has(rs, id) && done == Updated(rs, Lookup(rs, id).value.(enabled := true))
      case ActStop => Has(rs, id) && done == Updated(rs, Lookup(rs, id).value.(enabled := false))
      case ActRestart => done == rs
      case ActUnknown => false
  }

  /** A request ends with the status due to it, or with a failure of one of its effects
    * where success is due, and a successful one does what it says. */
  ghost predicate Answered(req: Request, w: World, v: World, s: Status) {
    && (s == Due(req, w.mem) || (Due(req, w.mem) == OK && s != NotFound && v.troubles > w.troubles))
    && (s == OK ==> Stored(req, w.mem, v.mem))
  }

  lemma RebootSettles(w: World)
    requires Good(w)
    ensures Settled(Reboot(w)) && (!w.dirty ==> Reboot(w).orphans == w.orphans)
  {
    hide Owned, UniqueIds;
    assert LocalIn(w.files - Reboot(w).orphans, w.disk);
  }

  class Panel {
    var w: World
    // Every state passed through.
    var trace: seq<World>
    // No effect fails that does not have to.
    const reliable: bool

    /** The states passed through since position n, any of which a crash can leave. */
    ghost predicate GoodSince(n: nat)
      reads this
    {
      AllGood(trace, n, w.switched)
    }

    constructor (w: World, reliable: bool)
      ensures this.w == w && trace == [w] && this.reliable == reliable
    {
      this.reliable := reliable;
      this.w := w;
      trace := [w];
    }

    method Put(v: World)
      requires Good(v)
      modifies this
      ensures w == v && trace == old(trace) + [v] && GoodSince(|old(trace)|)
    {
      w := v;
      trace := trace + [v];
    }

    // ---- Effects ----

    /** The store changes in memory, then flushes. */
    method Save(rs: seq<Record>) returns (ok: bool)
      requires Good(w) && Good(w.(mem := rs)) && Good(w.(mem := rs, disk := rs, dirty := false))
      modifies this
      ensures reliable ==> ok
      ensures w == if ok then old(w).(mem := rs, disk := rs, dirty := false)
                   else old(w).(mem := rs, dirty := true, faults := true, troubles := old(w).troubles + 1)
      ensures old(trace) <= trace && GoodSince(|old(trace)|)
    {
      var works: bool := *;
      works := works || reliable;
      Put(w.(mem := rs));
      if works {
        Put(w.(disk := rs, dirty := false));
      } else {
        Put(w.(dirty := true, faults := true, troubles := w.troubles + 1));
      }
      return works;
    }

    method WriteUnit(id: string) returns (ok: bool)
      requires Good(w) && Good(w.(files := w.files + {id}, orphans := w.orphans - {id}))
      modifies this
      ensures reliable ==> ok
      ensures w == if ok then old(w).(files := old(w).files + {id}, orphans := old(w).orphans - {id}, stale := true)
                   else old(w).(troubles := old(w).troubles + 1)
      ensures old(trace) <= trace && GoodSince(|old(trace)|)
    {
      var works: bool := *;
      works := works || reliable;
      if works {
        Put(w.(files := w.files + {id}, orphans := w.orphans - {id}, stale := true));
      } else {
        Put(w.(troubles := w.troubles + 1));
      }
      return works;
    }

    /** A unit file that cannot be deleted stays behind as an orphan. */
    method UnlinkUnit(id: string)
      requires Good(w)
      modifies this
      ensures reliable ==> w.troubles == old(w).troubles
      ensures || w == old(w).(files := old(w).files - {id}, orphans := old(w).orphans - {id}, stale := true)
              || (id in old(w).files && w == old(w).(orphans := old(w).orphans + {id}, faults := true,
                                             troubles := old(w).troubles + 1))
      ensures Good(w) && old(trace) <= trace && GoodSince(|old(trace)|)
    {
      var works: bool := *;
      works := works || reliable;
      if works || id !in w.files {
        assert w.files - {id} - (w.orphans - {id}) == w.files - w.orphans - {id};
        Put(w.(files := w.files - {id}, orphans := w.orphans - {id}, stale := true));
      } else {
        Put(w.(orphans := w.orphans + {id}, faults := true, troubles := w.troubles + 1));
      }
    }

    /** systemctl on one unit.  A command that fails may have stopped or started the
      * unit all the same, but no other. */
    method Systemctl(v: Verb, id: string) returns (ok: bool)
      requires Good(w)
      modifies this
      ensures SameStore(old(w), w) && SameElsewhere(old(w), w, id)
      ensures w.files == old(w).files && w.orphans == old(w).orphans && w.faults == old(w).faults
      ensures ok && (v.Start? || v.Restart?) ==> id in w.active && id in w.files
      ensures ok && v.Stop? ==> id !in w.active
      ensures ok && v.Enable? ==> id in w.enabled
      ensures ok && v.Disable? ==> id !in w.enabled
      ensures ok && (v.Restart? || (v.Start? && id !in old(w).active)) ==> UpToDate(w, id)
      ensures !v.Start? && !v.Restart? ==> w.runs == old(w).runs
      ensures w.stale == (old(w).stale && !(ok && v.DaemonReload?)) && w.stats == old(w).stats
      ensures w.troubles == if ok then old(w).troubles else old(w).troubles + 1
      ensures reliable && (v.Start? || v.Restart? || v.Enable? ==> id in w.files) ==> ok
      ensures v.Enable? || v.Disable? || v.DaemonReload? ==> w.active == old(w).active
      ensures !v.Enable? && !v.Disable? ==> w.enabled == old(w).enabled
      ensures Good(w) && old(trace) <= trace && GoodSince(|old(trace)|)
    {
      hide LocalIn, UniqueIds, Lookup;
      var works: bool, up: bool, boot: bool := *, *, *;
      works := works || reliable;
      if (v.Start? || v.Restart? || v.Enable?) && id !in w.files {
        works := false;
      }
      if works || !(v.Start? || v.Restart? || v.Stop?) {
        up := v.Start? || v.Restart? || (!v.Stop? && id in w.active);
      }
      if works || !(v.Enable? || v.Disable?) {
        boot := v.Enable? || (!v.Disable? && id in w.enabled);
      }
      var troubles := if works then w.troubles else w.troubles + 1;
      if v.DaemonReload? {
        Put(w.(stale := w.stale && !works, troubles := troubles));
        return works;
      }
      var loads := up && (v.Restart? || (v.Start? && id !in w.active));
      var active := if up then w.active + {id} else w.active - {id};
      var enabled := if boot then w.enabled + {id} else w.enabled - {id};
      var runs := if loads then w.runs[id := Lookup(w.disk, id)] else w.runs;
      Put(w.(active := active, enabled := enabled, runs := runs, troubles := troubles));
      return works;
    }

    method RemoveStat(id: string)
      requires Good(w)
      modifies this
      ensures reliable ==> w.troubles == old(w).troubles
      ensures w == old(w).(stats := old(w).stats - {id}) || w == old(w).(troubles := old(w).troubles + 1)
      ensures Good(w) && old(trace) <= trace && GoodSince(|old(trace)|)
    {
      var works: bool := *;
      works := works || reliable;
      if works || id !in w.stats {
        Put(w.(stats := w.stats - {id}));
      } else {
        Put(w.(troubles := w.troubles + 1));
      }
    }

    // ---- Manager ----

    /** Brings the local unit of a tunnel to its desired state. */
    method ApplyLocal(r: Record) returns (ok: bool)
      requires Good(w) && Good(w.(files := w.files + {r.id}, orphans := w.orphans - {r.id}))
      modifies this
      ensures reliable ==> w.troubles == old(w).troubles
      ensures SameStore(old(w), w) && SameElsewhere(old(w), w, r.id) && w.faults == old(w).faults
      ensures ok ==> UnitFollows(w, r, w.troubles == old(w).troubles)
      ensures ok ==> r.id in w.files && !w.stale && (r.id in w.active <==> r.enabled)
      ensures ok && r.enabled ==> r.id in w.enabled && r.id in w.runs && w.runs[r.id] == Lookup(w.disk, r.id)
      ensures !r.enabled && w.troubles == old(w).troubles ==> r.id !in w.enabled
      ensures w.troubles >= old(w).troubles && (!ok ==> w.troubles > old(w).troubles)
      ensures old(w).files <= w.files <= old(w).files + {r.id} && w.orphans <= old(w).orphans
      ensures Good(w) && old(trace) <= trace && GoodSince(|old(trace)|)
    {
      hide LocalIn, UniqueIds;
      ok := WriteUnit(r.id);
      if !ok {
        return;
      }
      ok := Systemctl(DaemonReload, r.id);
      if !ok {
        return;
      }
      if r.enabled {
        ok := Systemctl(Enable, r.id);
        if !ok {
          return;
        }
        ok := Systemctl(Restart, r.id);
        return;
      }
      var ignored := Systemctl(Disable, r.id);
      ok := Systemctl(Stop, r.id);
    }

    /** Stops, disables and deletes the local unit; failures are ignored. */
    method RemoveLocal(id: string)
      requires Good(w)
      modifies this
      ensures reliable ==> w.troubles == old(w).troubles
      ensures SameStore(old(w), w) && SameElsewhere(old(w), w, id)
      ensures (old(w).faults ==> w.faults) && w.troubles >= old(w).troubles
      ensures w.troubles == old(w).troubles ==> Gone(w, id)
      ensures || (id !in w.files && id !in w.orphans)
              || (id in old(w).files && id in w.files && id in w.orphans && w.faults)
      ensures Good(w) && old(trace) <= trace && GoodSince(|old(trace)|)
    {
      hide LocalIn, UniqueIds;
      var ok := Systemctl(Stop, id);
      ok := Systemctl(Disable, id);
      UnlinkUnit(id);
      ok := Systemctl(DaemonReload, id);
      RemoveStat(id);
    }

    // ---- Mode dispatch; a reverse tunnel has no local unit ----

    /** Work on another host, which can fail. */
    method ApplyReverse() returns (ok: bool)
      requires Good(w)
      modifies this
      ensures reliable ==> ok
      ensures w == old(w).(troubles := if ok then old(w).troubles else old(w).troubles + 1)
      ensures Good(w) && old(trace) <= trace && GoodSince(|old(trace)|)
    {
      ok := *;
      ok := ok || reliable;
      if !ok {
        Put(w.(troubles := w.troubles + 1));
      }
    }

    method Apply(r: Record) returns (ok: bool)
      requires Good(w)
      requires !IsReverse(r) ==> Good(w.(files := w.files + {r.id}, orphans := w.orphans - {r.id}))
      modifies this
      ensures reliable ==> w.troubles == old(w).troubles
      ensures SameStore(old(w), w) && SameElsewhere(old(w), w, r.id) && w.faults == old(w).faults
      ensures IsReverse(r) ==> SameUnits(old(w), w)
      ensures ok && !IsReverse(r) ==> UnitFollows(w, r, w.troubles == old(w).troubles)
      ensures w.troubles >= old(w).troubles && (!ok ==> w.troubles > old(w).troubles)
      ensures old(w).files <= w.files <= old(w).files + {r.id} && w.orphans <= old(w).orphans
      ensures Good(w) && old(trace) <= trace && GoodSince(|old(trace)|)
    {
      if IsReverse(r) {
        ok := ApplyReverse();
        return;
      }
      ok := ApplyLocal(r);
    }

    method Remove(r: Record)
      requires Good(w)
      modifies this
      ensures reliable ==> w.troubles == old(w).troubles
      ensures SameStore(old(w), w) && SameElsewhere(old(w), w, r.id)
      ensures (old(w).faults ==> w.faults) && w.troubles >= old(w).troubles
      ensures IsReverse(r) ==> w == old(w)
      ensures !IsReverse(r) && w.troubles == old(w).troubles ==> Gone(w, r.id)
      ensures !IsReverse(r) ==>
                || (r.id !in w.files && r.id !in w.orphans)
                || (r.id in old(w).files && r.id in w.files && r.id in w.orphans && w.faults)
      ensures Good(w) && old(trace) <= trace && GoodSince(|old(trace)|)
    {
      if IsReverse(r) {
        return;
      }
      RemoveLocal(r.id);
    }

    /** Key material for a tunnel: only its settings change; any step may fail. */
    method ResolveAuth(r: Record) returns (ok: bool, t: Record)
      requires Settled(w)
      modifies this
      ensures reliable ==> ok
      ensures w == old(w).(troubles := if ok then old(w).troubles else old(w).troubles + 1)
      ensures Settled(w) && old(trace) <= trace && GoodSince(|old(trace)|)
      ensures t == r.(settings := r.settings.(keys := t.settings.keys))
    {
      ok := *;
      ok := ok || reliable;
      if !ok {
        Put(w.(troubles := w.troubles + 1));
      }
      var keys: string := *;
      t := r.(settings := r.settings.(keys := keys));
    }

    // ---- Store operations ----

    method AddRecord(r: Record) returns (ok: bool)
      requires Settled(w) && !Has(w.mem, r.id) && !IsReverse(r)
      modifies this
      ensures reliable ==> ok
      ensures w == if ok then old(w).(mem := Added(old(w).mem, r), disk := Added(old(w).mem, r), dirty := false)
                   else old(w).(mem := Added(old(w).mem, r), dirty := true, faults := true,
                        troubles := old(w).troubles + 1)
      ensures Settled(w) && old(trace) <= trace && GoodSince(|old(trace)|)
    {
      AddKeeps(w, r);
      ok := Save(Added(w.mem, r));
    }

    method UpdateRecord(r: Record) returns (s: Saved)
      requires Settled(w)
      requires r.id in w.files && IsReverse(r) ==> r.id in w.orphans
      modifies this
      ensures reliable ==> w.troubles == old(w).troubles
      ensures w.mem == Updated(old(w).mem, r) && SameUnits(old(w), w)
      ensures s == Missing <==> !Has(old(w).mem, r.id)
      ensures s == Done ==> w.disk == w.mem && !w.dirty && w.faults == old(w).faults
      ensures s == Missing ==> w == old(w)
      ensures s == FlushError ==> w.dirty && w.disk == old(w).disk
      ensures w.troubles == if s == FlushError then old(w).troubles + 1 else old(w).troubles
      ensures w.switched == old(w).switched && (old(w).faults ==> w.faults)
      ensures Settled(w) && old(trace) <= trace && GoodSince(|old(trace)|)
    {
      if !Has(w.mem, r.id) {
        return Missing;
      }
      UpdateKeeps(w, r);
      var ok := Save(Updated(w.mem, r));
      return if ok then Done else FlushError;
    }

    method DeleteRecord(id: string) returns (s: Saved)
      requires Settled(w)
      requires id in w.files ==> id in w.orphans
      modifies this
      ensures reliable ==> w.troubles == old(w).troubles
      ensures w.mem == Deleted(old(w).mem, id) && SameUnits(old(w), w)
      ensures s == Missing <==> !Has(old(w).mem, id)
      ensures s == Done ==> w.disk == w.mem && !w.dirty && w.faults == old(w).faults
      ensures s == FlushError ==> w.dirty && w.disk == old(w).disk
      ensures w.troubles == if s == FlushError then old(w).troubles + 1 else old(w).troubles
      ensures w.switched == old(w).switched && (old(w).faults ==> w.faults)
      ensures Settled(w) && old(trace) <= trace && GoodSince(|old(trace)|)
    {
      if !Has(w.mem, id) {
        return Missing;
      }
      DeleteKeeps(w, id);
      var ok := Save(Deleted(w.mem, id));
      return if ok then Done else FlushError;
    }

    /** Saves a stored tunnel's new fields and brings its unit in line. */
    method Commit(t: Record) returns (s: Status)
      requires Settled(w)
      requires t.id in w.files && IsReverse(t) ==> t.id in w.orphans
      modifies this
      ensures reliable ==> w.troubles == old(w).troubles
      ensures w.mem == Updated(old(w).mem, t) && SameElsewhere(old(w), w, t.id)
      ensures s == OK ==> Has(old(w).mem, t.id) && w.mem == w.disk
      ensures s == OK && !IsReverse(t) ==> UnitFollows(w, t, w.troubles == old(w).troubles)
      ensures IsReverse(t) ==> SameUnits(old(w), w)
      ensures old(w).files <= w.files <= old(w).files + {t.id} && w.orphans <= old(w).orphans
      ensures s == OK || s == ServerError
      ensures w.troubles >= old(w).troubles
      ensures s == ServerError && Has(old(w).mem, t.id) ==> w.troubles > old(w).troubles
      ensures w.switched == old(w).switched && (old(w).faults ==> w.faults)
      ensures Settled(w) && old(trace) <= trace && GoodSince(|old(trace)|)
    {
      hide UniqueIds, LocalIn, Updated, Lookup, Has;
      var saved := UpdateRecord(t);
      if saved != Done {
        return ServerError;
      }
      FileKeeps(w, old(w).mem, t);
      var ok := Apply(t);
      return if ok then OK else ServerError;
    }

    /** Saves a stored tunnel's new fields, noting a tunnel with a unit file that they
      * turn into a reverse one. */
    method Replace(t: Record) returns (s: Status)
      requires Settled(w) && Has(w.mem, t.id)
      modifies this
      ensures reliable ==> w.troubles == old(w).troubles
      ensures w.mem == Updated(old(w).mem, t) && SameElsewhere(old(w), w, t.id)
      ensures s == OK || s == ServerError
      ensures s == OK ==> w.mem == w.disk
      ensures s == OK && !IsReverse(t) ==> UnitFollows(w, t, w.troubles == old(w).troubles)
      ensures IsReverse(t) ==> w.files == old(w).files && w.active == old(w).active
      ensures s == OK && LocalIn(old(w).files, old(w).mem) ==>
                (LocalIn(w.files, w.mem) <==> !(t.id in old(w).files && IsReverse(t)))
      ensures !(t.id in old(w).files && IsReverse(t)) ==>
                w.orphans <= old(w).orphans && w.switched == old(w).switched
      ensures w.troubles >= old(w).troubles && (s == ServerError ==> w.troubles > old(w).troubles)
      ensures (old(w).switched ==> w.switched) && (old(w).faults ==> w.faults)
      ensures Settled(w) && old(trace) <= trace && GoodSince(|old(trace)|)
    {
      hide LocalIn, Updated, Lookup, Has, UniqueIds, AllGood, UnitFollows, UpToDate;
      ghost var start := |trace|;
      GoodFromHere(trace, w.switched);
      if IsReverse(t) && t.id in w.files {
        OrphanAllowed(w, t.id);
        Put(w.(orphans := w.orphans + {t.id}, switched := true));
      }
      ghost var noted, on, marked := trace, w.switched, w;
      assert AllGood(noted, start, on) by { NotedGood(old(trace), noted, w); }
      assert SameElsewhere(old(w), marked, t.id);
      hide SameElsewhere;
      UpdateOwnership(old(w).files, old(w).mem, t);
      s := Commit(t);
      AllGoodOn(noted, start, trace);
      SameElsewhereThen(old(w), marked, w, t.id);
      if !IsReverse(t) && s == OK {
        FollowsHasFile(w, t, w.troubles == old(w).troubles);
        assert w.files == old(w).files + {t.id};
      }
    }

    // ---- Handlers ----

    /** Resolves the keys of a tunnel whose placeholder was just stored and fills it in,
      * or takes it out again. */
    method Fill(body: Input, id: string, now: int) returns (s: Status)
      requires Settled(w) && UniqueIds(w.mem) && Has(w.mem, id)
      requires id in w.files ==> id in w.orphans
      modifies this
      ensures reliable ==> w.troubles == old(w).troubles
      ensures SameElsewhere(old(w), w, id) && w.orphans <= old(w).orphans
      ensures s == OK || s == BadRequest || s == ServerError
      ensures s == BadRequest ==> w.mem == Deleted(old(w).mem, id)
      ensures s != BadRequest ==>
                exists t :: w.mem == Updated(old(w).mem, t) && t.createdAt == now && t.id == id
                            && FilledIn(old(w), w, t, id, body, s)
      ensures s == OK ==> w.disk == w.mem
      ensures w.troubles >= old(w).troubles && (s != OK ==> w.troubles > old(w).troubles)
      ensures w.switched == old(w).switched && (old(w).faults ==> w.faults)
      ensures Settled(w) && old(trace) <= trace && GoodSince(|old(trace)|)
    {
      hide LocalIn, Updated, Lookup, Has, Deleted, AllGood, SameElsewhere, UnitFollows, Settled, Good, UniqueIds,
        IsReverse;
      ghost var start := |trace|;
      var ok, t := ResolveAuth(Record(id, body.mode, body.enabled, now, body.settings));
      ghost var resolved, before := trace, w;
      SameElsewhereOn(old(w), before, before, id);
      if !ok {
        var undone := DeleteRecord(id);
        AllGoodOn(resolved, start, trace);
        SameElsewhereOn(old(w), before, w, id);
        return BadRequest;
      }
      assert Carries(t, id, body);
      hide Carries;
      s := Commit(t);
      AllGoodOn(resolved, start, trace);
      SameElsewhereOn(old(w), before, w, id);
      assert FilledIn(old(w), w, t, id, body, s);
    }

    /** A create that fails to resolve its keys leaves the stored list as it was; one
      * that succeeds leaves the new tunnel stored and, when local, its unit following
      * it.  It succeeds when the body is valid and nothing fails.  No other unit is
      * touched, and every state on the way is good. */
    method Create(body: Option<Input>, newId: string, now: int) returns (s: Status)
      requires Settled(w) && (body.Some? ==> !Has(w.mem, newId))
      modifies this
      ensures reliable ==> w.troubles == old(w).troubles
      ensures SameElsewhere(old(w), w, newId) && w.orphans <= old(w).orphans
      ensures body.None? ==> s == BadRequest && w == old(w)
      ensures s == BadRequest ==> w.mem == old(w).mem
      ensures s == OK ==> body.Some? && w.disk == w.mem
      ensures s == OK ==>
                exists t :: w.mem == Added(old(w).mem, t) && t.createdAt == now
                            && FilledIn(old(w), w, t, newId, body.value, OK)
      ensures s == OK || s == BadRequest || s == ServerError
      ensures s == ServerError ==>
                || w.mem == Added(old(w).mem, Record(newId, "", false, now, Settings("", "", "", [])))
                || (exists t :: w.mem == Added(old(w).mem, t) && Carries(t, newId, body.value) && t.createdAt == now)
      ensures w.troubles >= old(w).troubles && (body.Some? && s != OK ==> w.troubles > old(w).troubles)
      ensures w.switched == old(w).switched && (old(w).faults ==> w.faults)
      ensures Settled(w) && old(trace) <= trace && GoodSince(|old(trace)|)
    {
      if body.None? {
        return BadRequest;
      }
      hide LocalIn, Updated, Lookup, Has, Deleted, Added, AllGood, SameElsewhere, UnitFollows, Carries, UpToDate;
      AddedFresh(w.mem, Placeholder(newId, now));
      NoFile(w, newId);
      hide Settled, Good, UniqueIds;
      assert !IsReverse(Placeholder(newId, now));
      ghost var start := |trace|;
      var ok := AddRecord(Placeholder(newId, now));
      ghost var saved, added := w, trace;
      SameElsewhereOn(old(w), saved, saved, newId);
      if !ok {
        return ServerError;
      }
      s := Fill(body.value, newId, now);
      AllGoodOn(added, start, trace);
      SameElsewhereOn(old(w), saved, w, newId);
    }

    /** An update that succeeds keeps the tunnel's place and creation time, and leaves
      * a local tunnel's unit running iff it is enabled.  Where every unit file had its
      * local tunnel, that stays so exactly unless the update turns a tunnel with a unit
      * file into a reverse one. */
    method Update(id: string, body: Option<Input>) returns (s: Status)
      requires Settled(w)
      modifies this
      ensures reliable ==> w.troubles == old(w).troubles
      ensures SameElsewhere(old(w), w, id)
      ensures s == NotFound <==> Lookup(old(w).mem, id).None?
      ensures s == NotFound ==> w == old(w)
      ensures s == BadRequest ==> w == old(w).(troubles := w.troubles)
      ensures body.None? ==> w == old(w) && (s == NotFound || s == BadRequest)
      ensures s == OK ==> body.Some? && w.disk == w.mem
      ensures w.troubles >= old(w).troubles
      ensures body.Some? && s != NotFound && s != OK ==> w.troubles > old(w).troubles
      ensures s == OK || s == ServerError ==>
                body.Some? && exists t :: w.mem == Updated(old(w).mem, t) && FilledIn(old(w), w, t, id, body.value, s)
      ensures body.Some? && body.value.mode == REVERSE ==> w.files == old(w).files && w.active == old(w).active
      ensures s == OK && LocalIn(old(w).files, old(w).mem) ==>
                (LocalIn(w.files, w.mem) <==> !(id in old(w).files && body.value.mode == REVERSE))
      ensures !(id in old(w).files && body.Some? && body.value.mode == REVERSE) ==>
                w.orphans <= old(w).orphans && w.switched == old(w).switched
      ensures old(w).switched ==> w.switched
      ensures old(w).faults ==> w.faults
      ensures Settled(w) && old(trace) <= trace && GoodSince(|old(trace)|)
    {
      hide LocalIn, Updated, Lookup, Has, UniqueIds, AllGood, UnitFollows, UpToDate;
      ghost var start := |trace|;
      GoodFromHere(trace, w.switched);
      LookupId(w.mem, id);
      var existing := Lookup(w.mem, id);
      if existing.None? {
        return NotFound;
      }
      if body.None? {
        return BadRequest;
      }
      var ok, t := ResolveAuth(Record(id, body.value.mode, body.value.enabled, 0, body.value.settings));
      if !ok {
        return BadRequest;
      }
      assert Carries(t, id, body.value);
      hide Carries, SameElsewhere, Settled, Good, IsReverse;
      ghost var resolved := trace;
      s := Replace(t);
      assert FilledIn(old(w), w, t, id, body.value, s);
      AllGoodOn(resolved, start, trace);
      assert SameElsewhere(old(w), w, id) by { SameElsewhereOn(old(w), old(w).(troubles := w.troubles), w, id); }
    }

    /** A delete that succeeds removes exactly this tunnel, and its local unit file
      * before its record.  Where every other unit file had its local tunnel, all have
      * exactly when this one's file is gone; a reverse tunnel's is not touched. */
    method Delete(id: string) returns (s: Status)
      requires Settled(w)
      modifies this
      ensures reliable ==> w.troubles == old(w).troubles
      ensures SameElsewhere(old(w), w, id)
      ensures s == NotFound <==> Lookup(old(w).mem, id).None?
      ensures s == NotFound ==> w == old(w)
      ensures s != NotFound ==> w.mem == Deleted(old(w).mem, id)
      ensures s == OK ==> w.disk == w.mem
      ensures s != NotFound && LocalIn(old(w).files - {id}, old(w).mem) ==>
                (LocalIn(w.files, w.mem) <==> id !in w.files)
      ensures s != NotFound ==>
                if IsReverse(Lookup(old(w).mem, id).value) then SameUnits(old(w), w)
                else id !in w.files || (id in w.orphans && w.faults)
      ensures s != NotFound && !IsReverse(Lookup(old(w).mem, id).value) ==>
                w.troubles == old(w).troubles ==>
                  id !in w.active && id !in w.enabled && id !in w.stats && !w.stale
      ensures s == NotFound || s == OK || s == ServerError
      ensures w.troubles >= old(w).troubles && (s == ServerError ==> w.troubles > old(w).troubles)
      ensures !w.faults ==> w.orphans <= old(w).orphans
      ensures w.switched == old(w).switched && (old(w).faults ==> w.faults)
      ensures Settled(w) && old(trace) <= trace && GoodSince(|old(trace)|)
    {
      hide LocalIn, Deleted, UniqueIds;
      LookupId(w.mem, id);
      var t := Lookup(w.mem, id);
      if t.None? {
        return NotFound;
      }
      ReverseHasNoFile(w, id);
      hide Lookup, Has;
      Remove(t.value);
      DeleteOwnership(old(w).files, old(w).mem, w.files, id);
      assert id !in w.orphans ==> w.orphans <= old(w).orphans by {
        assert forall x :: x in w.orphans && x != id ==> x in w.orphans - {id};
      }
      var saved := DeleteRecord(id);
      return if saved == Done then OK else ServerError;
    }

    /** Start and stop set the stored flag and bring the unit in line; restart only
      * starts the unit, whatever the flag says. */
    method Action(id: string, action: ActionName) returns (s: Status)
      requires Settled(w)
      modifies this
      ensures reliable && (action != ActRestart || id in old(w).files) ==> w.troubles == old(w).troubles
      ensures SameElsewhere(old(w), w, id) && w.orphans <= old(w).orphans
      ensures s == NotFound <==> Lookup(old(w).mem, id).None?
      ensures s == NotFound || s == BadRequest ==> w == old(w)
      ensures s == BadRequest <==> Lookup(old(w).mem, id).Some? && action == ActUnknown
      ensures w.troubles >= old(w).troubles && (s == ServerError ==> w.troubles > old(w).troubles)
      ensures s != NotFound && (action == ActStart || action == ActStop) ==>
                var t := Lookup(old(w).mem, id).value.(enabled := action == ActStart);
                && w.mem == Updated(old(w).mem, t)
                && (s == OK && !IsReverse(t) ==> UnitFollows(w, t, w.troubles == old(w).troubles))
      ensures action == ActRestart ==> SameStore(old(w), w)
      ensures s == OK && action == ActRestart && !IsReverse(Lookup(old(w).mem, id).value) ==>
                UpToDate(w, id)
      ensures w.switched == old(w).switched && (old(w).faults ==> w.faults)
      ensures Settled(w) && old(trace) <= trace && GoodSince(|old(trace)|)
    {
      hide LocalIn, Updated, UniqueIds;
      LookupId(w.mem, id);
      var found := Lookup(w.mem, id);
      if found.None? {
        return NotFound;
      }
      var ok: bool;
      match action {
        case ActUnknown => return BadRequest;
        case ActRestart =>
          if IsReverse(found.value) {
            ok := ApplyReverse();
          } else {
            ok := Systemctl(Restart, id);
          }
        case _ =>
          var t := found.value.(enabled := action == ActStart);
          ReverseHasNoFile(w, id);
          var saved := UpdateRecord(t);
          FileKeeps(w, old(w).mem, t);
          ok := Apply(t);
      }
      return if ok then OK else ServerError;
    }

    /** The panel dies in the state at position n of the trace, what came after never
      * happening, and starts again. */
    method Crash(n: nat)
      requires n < |trace| && Good(trace[n])
      modifies this
      ensures w == Reboot(old(trace)[n]) && trace == old(trace)[..n + 1] + [w]
      ensures Settled(w)
    {
      RebootSettles(trace[n]);
      w := Reboot(trace[n]);
      trace := trace[..n + 1] + [w];
    }

    /** One request. */
    method Answer(req: Request) returns (s: Status)
      requires Settled(w)
      modifies this
      ensures reliable && !(req.ReqAction? && req.action == ActRestart && req.id !in old(w).files) ==>
                w.troubles == old(w).troubles && s == Due(req, old(w).mem)
      ensures Settled(w) && old(trace) < trace && trace[|trace| - 1] == w && GoodSince(|old(trace)|)
      ensures w.switched ==> old(w).switched || SwitchesIn(req, old(w))
      ensures Answered(req, old(w), w, s)
    {
      hide UniqueIds, LocalIn, SameElsewhere, Lookup, Has, Updated, Deleted, Added, AllGood, Good, UnitFollows,
        Carries;
      ghost var start, begin := trace, w;
      GoodFromHere(trace, w.switched);
      match req {
        case ReqCreate(body, newId, now) =>
          if body.Some? && Has(w.mem, newId) {
            s := ServerError;
          } else {
            s := Create(body, newId, now);
          }
        case ReqUpdate(id, body) =>
          LookupId(w.mem, id);
          s := Update(id, body);
        case ReqDelete(id) =>
          LookupId(w.mem, id);
          s := Delete(id);
        case ReqAction(id, action) =>
          LookupId(w.mem, id);
          s := Action(id, action);
      }
      assert Answered(req, begin, w, s);
      ghost var done := trace;
      Put(w);
      AllGoodOn(done, |start|, trace);
    }

    /** One request, or as much of it as comes before a crash. */
    method Take(turn: Turn) returns (s: Option<Status>)
      requires Settled(w) && |trace| >= 1 && trace[|trace| - 1] == w
      modifies this
      ensures Settled(w) && old(trace) <= trace && |trace| >= 1 && trace[|trace| - 1] == w
      ensures AllGood(trace, |old(trace)|, old(w).switched || SwitchesIn(turn.req, old(w)))
      ensures w.switched ==> old(w).switched || SwitchesIn(turn.req, old(w))
      ensures |trace| > |old(trace)| && (s.Some? <==> turn.crash.None?)
      ensures s.Some? ==> Answered(turn.req, old(w), w, s.value)
      ensures s.None? ==> |trace| - |old(trace)| <= turn.crash.value + 1 && w == Reboot(trace[|trace| - 2])
    {
      hide UniqueIds, LocalIn, Good, SwitchesIn, Answered;
      var begin := |trace| - 1;
      var status := Answer(turn.req);
      s := if turn.crash.None? then Some(status) else None;
      if turn.crash.Some? {
        Crash(if begin + turn.crash.value < |trace| then begin + turn.crash.value else |trace| - 1);
      }
    }

    /** Any requests one after the other, with crashes at any point of them; `starts` are
      * the worlds in which they began.  Every state passed through is good, and unless an
      * update turned a tunnel with a unit file into a reverse one, none of them has
      * orphans without a fault before it. */
    method Serve(turns: seq<Turn>) returns (starts: seq<World>)
      requires Settled(w) && |trace| >= 1 && trace[|trace| - 1] == w
      modifies this
      ensures Settled(w) && old(trace) <= trace && |trace| >= |old(trace)| + |turns|
      ensures |starts| == |turns| && forall i :: 0 <= i < |starts| ==> starts[i] in trace[|old(trace)| - 1..]
      ensures AllGood(trace, |old(trace)|, old(w).switched || SomeSwitch(turns, starts))
      ensures !old(w).switched && !SomeSwitch(turns, starts) ==>
                forall k :: |old(trace)| <= k < |trace| && !trace[k].faults ==> LocalIn(trace[k].files, trace[k].mem)
      ensures !old(w).switched && !SomeSwitch(turns, starts) && !w.faults ==>
                LocalIn(w.files, w.mem) && w.mem == w.disk
    {
      hide UniqueIds, LocalIn, SameElsewhere, Good, SwitchesIn, SomeSwitch, Answered;
      starts := [];
      assert !SomeSwitch(turns, []) by { NoStarts(turns); }
      for i := 0 to |turns|
        invariant Settled(w) && old(trace) <= trace && |starts| == i && |trace| >= |old(trace)| + i
        invariant |trace| >= 1 && trace[|trace| - 1] == w
        invariant forall j :: 0 <= j < i ==> starts[j] in trace[|old(trace)| - 1..]
        invariant AllGood(trace, |old(trace)|, old(w).switched || SomeSwitch(turns, starts))
        invariant w.switched ==> old(w).switched || SomeSwitch(turns, starts)
      {
        ghost var before := trace;
        MoreStarts(turns, starts, w);
        starts := starts + [w];
        assert before[|old(trace)| - 1..][|before| - |old(trace)|] == w;
        var s := Take(turns[i]);
        assert before[|old(trace)| - 1..] <= trace[|old(trace)| - 1..];
        AllGoodOn(before, |old(trace)|, trace);
      }
      NoOrphans(w);
      forall k | |old(trace)| <= k < |trace|
        ensures !trace[k].switched && !trace[k].faults ==> LocalIn(trace[k].files, trace[k].mem)
      {
        NoOrphansIn(trace[k]);
      }
    }

    /** A client that turns a local tunnel into a reverse one and deletes it leaves its
      * unit file behind, with no tunnel that owns it. */
    method SwitchAndDelete(id: string, body: Input) returns (deleted: bool)
      requires Settled(w) && id in w.files && body.mode == REVERSE
      modifies this
      ensures reliable && Has(old(w).mem, id) ==> deleted
      ensures deleted ==> id in w.files && !Has(w.mem, id) && !LocalIn(w.files, w.mem)
      ensures deleted && id in old(w).active ==> id in w.active
      ensures !deleted && Has(old(w).mem, id) ==> w.troubles > old(w).troubles
    {
      hide UniqueIds, AllGood, SameElsewhere, Settled, Good;
      LookupId(w.mem, id);
      var s := Update(id, Some(body));
      if s != OK {
        return false;
      }
      ghost var updated := w.mem;
      UniqueInMemory(old(w));
      UniqueInMemory(w);
      ghost var t: Record :| updated == Updated(old(w).mem, t) && Carries(t, id, body);
      CarriesMode(t, id, body);
      SwitchedIsReverse(old(w).mem, t);
      s := Delete(id);
      DeletedGone(updated, id);
      return s == OK;
    }
  }

  // ---- Why the store operations keep the world good ----

  lemma AddedFresh(rs: seq<Record>, r: Record)
    requires UniqueIds(rs) && !Has(rs, r.id)
    ensures UniqueIds(Added(rs, r)) && IndexOf(Added(rs, r), r.id) == |rs|
    ensures Deleted(Added(rs, r), r.id) == rs
    ensures forall t: Record :: t.id == r.id ==>
                                  Updated(Added(rs, r), t) == Added(rs, t.(createdAt := r.createdAt))
  {
    IndexUnique(Added(rs, r), r.id, |rs|);
  }

  lemma AddedOwned(rs: seq<Record>, r: Record)
    requires UniqueIds(rs) && !Has(rs, r.id) && !IsReverse(r)
    ensures forall id :: Owned(Added(rs, r), id) <==> id == r.id || Owned(rs, id)
  {
    AddedFresh(rs, r);
    forall id
      ensures Lookup(Added(rs, r), id) == if id == r.id then Some(r) else Lookup(rs, id)
    {
      AddedLookup(rs, r, id);
    }
    hide IndexOf, Added;
  }

  lemma UpdatedOwned(rs: seq<Record>, r: Record)
    requires UniqueIds(rs)
    ensures UniqueIds(Updated(rs, r))
    ensures forall id :: Owned(Updated(rs, r), id) <==>
                         if id == r.id then Has(rs, id) && !IsReverse(r) else Owned(rs, id)
  {
    UpdatedLookup(rs, r, r.id);
    forall id
      ensures Lookup(Updated(rs, r), id) ==
              if id == r.id && Has(rs, id) then Some(r.(createdAt := Lookup(rs, id).value.createdAt))
              else Lookup(rs, id)
    {
      UpdatedLookup(rs, r, id);
    }
    hide IndexOf, Updated;
  }

  lemma DeletedOwned(rs: seq<Record>, id: string)
    requires UniqueIds(rs)
    ensures UniqueIds(Deleted(rs, id))
    ensures forall x :: Owned(Deleted(rs, id), x) <==> x != id && Owned(rs, x)
  {
    DeletedLookup(rs, id, id);
    forall x
      ensures Lookup(Deleted(rs, id), x) == if x == id then None else Lookup(rs, x)
    {
      DeletedLookup(rs, id, x);
    }
    hide IndexOf, Deleted;
  }

  lemma AddKeeps(w: World, r: Record)
    requires Settled(w) && !Has(w.mem, r.id) && !IsReverse(r)
    ensures Good(w.(mem := Added(w.mem, r)))
    ensures Good(w.(mem := Added(w.mem, r), disk := Added(w.mem, r), dirty := false))
  {
    AddedFresh(w.mem, r);
    AddedOwned(w.mem, r);
    hide UniqueIds, Owned, Added, IndexOf, Has, Deleted, Updated;
  }

  /** Replacing a record keeps every unit file but the orphans owned, unless it makes a
    * tunnel with a unit file a reverse one. */
  lemma UpdateKeeps(w: World, r: Record)
    requires Settled(w)
    requires r.id in w.files && IsReverse(r) ==> r.id in w.orphans
    ensures Good(w.(mem := Updated(w.mem, r)))
    ensures Good(w.(mem := Updated(w.mem, r), disk := Updated(w.mem, r), dirty := false))
  {
    UpdatedOwned(w.mem, r);
    assert forall id :: Owned(w.mem, id) ==> Has(w.mem, id);
    hide UniqueIds, Owned, Updated, Has;
  }

  lemma DeleteKeeps(w: World, id: string)
    requires Settled(w)
    requires id in w.files ==> id in w.orphans
    ensures Good(w.(mem := Deleted(w.mem, id)))
    ensures Good(w.(mem := Deleted(w.mem, id), disk := Deleted(w.mem, id), dirty := false))
  {
    DeletedOwned(w.mem, id);
    hide UniqueIds, Owned, Deleted, Has;
  }

  /** Where all unit files are owned, an update keeps that exactly unless it makes a
    * tunnel with a unit file a reverse one. */
  lemma UpdateOwnership(files: set<string>, rs: seq<Record>, t: Record)
    requires UniqueIds(rs)
    ensures LocalIn(files, rs) && Has(rs, t.id) && IsReverse(t) ==>
              (LocalIn(files, Updated(rs, t)) <==> t.id !in files)
    ensures LocalIn(files, rs) && Has(rs, t.id) && !IsReverse(t) ==> LocalIn(files + {t.id}, Updated(rs, t))
  {
    UpdatedOwned(rs, t);
    hide UniqueIds, Owned, Updated, Has;
  }

  lemma DeleteOwnership(before: set<string>, rs: seq<Record>, after: set<string>, id: string)
    requires UniqueIds(rs) && after - {id} == before - {id}
    ensures LocalIn(before - {id}, rs) ==> (LocalIn(after, Deleted(rs, id)) <==> id !in after)
  {
    DeletedOwned(rs, id);
    hide UniqueIds, Owned, Deleted, Has;
    assert forall x :: x in after && x != id ==> x in after - {id};
  }

  lemma LookupId(rs: seq<Record>, id: string)
    ensures Lookup(rs, id).Some? ==> Lookup(rs, id).value.id == id
    ensures Lookup(rs, id).Some? <==> Has(rs, id)
  {
  }

  lemma NoFile(w: World, id: string)
    requires Good(w) && !Has(w.mem, id)
    ensures id in w.files ==> id in w.orphans
  {
    assert !Owned(w.mem, id);
  }

  lemma ReverseHasNoFile(w: World, id: string)
    requires Good(w)
    ensures Lookup(w.mem, id).Some? && IsReverse(Lookup(w.mem, id).value) ==>
              (id in w.files ==> id in w.orphans)
  {
    if Lookup(w.mem, id).Some? && IsReverse(Lookup(w.mem, id).value) {
      assert !Owned(w.mem, id);
    }
  }

  lemma OrphanAllowed(w: World, id: string)
    requires Settled(w)
    ensures Settled(w.(orphans := w.orphans + {id}, switched := true))
  {
    hide Owned, UniqueIds;
  }

  lemma NotedGood(before: seq<World>, noted: seq<World>, w: World)
    requires Good(w) && (noted == before || noted == before + [w])
    ensures AllGood(noted, |before|, w.switched)
  {
    hide Good;
  }

  lemma NoOrphans(w: World)
    requires Settled(w)
    ensures !w.switched && !w.faults ==> LocalIn(w.files, w.mem) && w.mem == w.disk
  {
    assert w.files - {} == w.files;
    hide Owned, UniqueIds;
  }

  lemma NoStarts(turns: seq<Turn>)
    ensures !SomeSwitch(turns, [])
  {
  }

  lemma MoreStarts(turns: seq<Turn>, starts: seq<World>, w: World)
    requires |starts| < |turns|
    ensures SomeSwitch(turns, starts + [w]) <==> SomeSwitch(turns, starts) || SwitchesIn(turns[|starts|].req, w)
  {
    hide SwitchesIn;
    var more := starts + [w];
    assert forall i :: 0 <= i < |starts| ==> more[i] == starts[i];
  }

  lemma NoOrphansIn(w: World)
    requires Good(w)
    ensures !w.switched && !w.faults ==> LocalIn(w.files, w.mem)
  {
    assert w.files - {} == w.files;
    hide Owned, UniqueIds;
  }

  lemma UniqueInMemory(w: World)
    requires Settled(w)
    ensures UniqueIds(w.mem)
  {
  }

  /** Writing the unit file of a stored local tunnel keeps the world good. */
  lemma FileKeeps(w: World, before: seq<Record>, t: Record)
    requires Settled(w) && w.mem == Updated(before, t) && UniqueIds(before) && Has(before, t.id)
    ensures !IsReverse(t) ==> Good(w.(files := w.files + {t.id}, orphans := w.orphans - {t.id}))
  {
    UpdatedOwned(before, t);
    hide UniqueIds, Owned, Updated, Has;
  }

  lemma CarriesMode(t: Record, id: string, body: Input)
    requires Carries(t, id, body)
    ensures t.id == id && t.mode == body.mode
  {
  }

  lemma SwitchedIsReverse(rs: seq<Record>, t: Record)
    requires UniqueIds(rs) && IsReverse(t)
    ensures Lookup(Updated(rs, t), t.id).Some? ==> IsReverse(Lookup(Updated(rs, t), t.id).value)
  {
    UpdatedOwned(rs, t);
    assert !Owned(Updated(rs, t), t.id);
    hide UniqueIds, Updated, IndexOf;
  }

  lemma DeletedGone(rs: seq<Record>, id: string)
    requires UniqueIds(rs)
    ensures !Has(Deleted(rs, id), id)
  {
    DeletedLookup(rs, id, id);
  }
}
