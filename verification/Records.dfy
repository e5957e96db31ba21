/** Stored tunnels as a list of records, and the ordered map that list stands for. */
module Records {
  import opened Options

  datatype Forward = Forward(listenAddr: string, listenPort: int, remoteAddr: string, remotePort: int)

  /** The fields of a tunnel no operation here looks into. */
  datatype Settings = Settings(name: string, remoteHost: string, keys: string, forwards: seq<Forward>)

  datatype Record = Record(id: string, mode: string, enabled: bool, createdAt: int, settings: Settings)

  // ---- What the store operations do to the list ----

  /** The first entry with an id; the length of the list when there is none. */
  function IndexOf(rs: seq<Record>, id: string): (i: nat)
    ensures i <= |rs|
    ensures i < |rs| ==> rs[i].id == id
    ensures forall k :: 0 <= k < i ==> rs[k].id != id
  {
    if rs == [] || rs[0].id == id then 0 else 1 + IndexOf(rs[1..], id)
  }

  predicate Has(rs: seq<Record>, id: string) { IndexOf(rs, id) < |rs| }

  function Lookup(rs: seq<Record>, id: string): Option<Record> {
    if Has(rs, id) then Some(rs[IndexOf(rs, id)]) else None
  }

  function Added(rs: seq<Record>, r: Record): seq<Record> { rs + [r] }

  function Updated(rs: seq<Record>, r: Record): seq<Record> {
    var i := IndexOf(rs, r.id);
    if i < |rs| then rs[i := r.(createdAt := rs[i].createdAt)] else rs
  }

  function Deleted(rs: seq<Record>, id: string): seq<Record> {
    var i := IndexOf(rs, id);
    if i < |rs| then rs[..i] + rs[i + 1..] else rs
  }

  ghost predicate UniqueIds(rs: seq<Record>) {
    forall i, j :: 0 <= i < j < |rs| ==> rs[i].id != rs[j].id
  }

  ghost predicate SortedByCreation(rs: seq<Record>) {
    forall i, j :: 0 <= i < j < |rs| ==> rs[i].createdAt <= rs[j].createdAt
  }

  // ---- The ordered map ----

  /** An insertion-ordered map from ids to records. */
  datatype OrderedMap = OrderedMap(order: seq<string>, val: map<string, Record>)

  function Ids(rs: seq<Record>): seq<string> {
    seq(|rs|, i requires 0 <= i < |rs| => rs[i].id)
  }

  ghost function Abs(rs: seq<Record>): OrderedMap {
    OrderedMap(Ids(rs), map id | id in Ids(rs) && Lookup(rs, id).Some? :: Lookup(rs, id).value)
  }

  function Without(order: seq<string>, id: string): seq<string> {
    if order == [] then []
    else if order[0] == id then Without(order[1..], id)
    else [order[0]] + Without(order[1..], id)
  }

  datatype Op = Add(r: Record) | Update(r: Record) | Delete(id: string)

  function ApplyList(rs: seq<Record>, op: Op): seq<Record> {
    match op
    case Add(r) => Added(rs, r)
    case Update(r) => Updated(rs, r)
    case Delete(id) => Deleted(rs, id)
  }

  function ApplyMap(m: OrderedMap, op: Op): OrderedMap {
    match op
    case Add(r) => OrderedMap(m.order + [r.id], m.val[r.id := r])
    case Update(r) =>
      if r.id in m.val then m.(val := m.val[r.id := r.(createdAt := m.val[r.id].createdAt)]) else m
    case Delete(id) =>
      if id in m.val then OrderedMap(Without(m.order, id), m.val - {id}) else m
  }

  function RunList(rs: seq<Record>, ops: seq<Op>): seq<Record> {
    if ops == [] then rs else ApplyList(RunList(rs, ops[..|ops| - 1]), ops[|ops| - 1])
  }

  function RunMap(m: OrderedMap, ops: seq<Op>): OrderedMap {
    if ops == [] then m else ApplyMap(RunMap(m, ops[..|ops| - 1]), ops[|ops| - 1])
  }

  /** Generated ids are new: no add reuses an id that is present. */
  ghost predicate FreshIds(rs: seq<Record>, ops: seq<Op>) {
    forall k :: 0 <= k < |ops| && ops[k].Add? ==> !Has(RunList(rs, ops[..k]), ops[k].r.id)
  }

  // ---- Refinement ----

  lemma HasIff(rs: seq<Record>, id: string)
    ensures Has(rs, id) <==> id in Ids(rs)
  {
    if Has(rs, id) {
      assert Ids(rs)[IndexOf(rs, id)] == id;
    }
    if id in Ids(rs) {
      var i :| 0 <= i < |rs| && Ids(rs)[i] == id;
      assert rs[i].id == id;
    }
  }

  lemma IndexUnique(rs: seq<Record>, id: string, i: nat)
    requires UniqueIds(rs) && i < |rs| && rs[i].id == id
    ensures IndexOf(rs, id) == i
  {
    var k := IndexOf(rs, id);
    assert k <= i;
  }

  lemma {:induction false} WithoutSplit(a: seq<string>, id: string, b: seq<string>)
    requires id !in a && id !in b
    ensures Without(a + [id] + b, id) == a + b
  {
    if a == [] {
      assert a + [id] + b == [id] + b && a + b == b;
      WithoutAbsent(b, id);
    } else {
      assert (a + [id] + b)[1..] == a[1..] + [id] + b;
      WithoutSplit(a[1..], id, b);
    }
  }

  lemma {:induction false} WithoutAbsent(order: seq<string>, id: string)
    requires id !in order
    ensures Without(order, id) == order
  {
    if order != [] {
      WithoutAbsent(order[1..], id);
    }
  }

  /** A map and the lookups in a list say the same. */
  ghost predicate SameLookups(rs: seq<Record>, val: map<string, Record>) {
    forall x :: Lookup(rs, x) == if x in val then Some(val[x]) else None
  }

  lemma AbsLookups(rs: seq<Record>, val: map<string, Record>)
    ensures SameLookups(rs, val) <==> Abs(rs).val == val
  {
    forall x
      ensures x in Ids(rs) <==> Lookup(rs, x).Some?
    {
      HasIff(rs, x);
    }
    hide Lookup;
    if SameLookups(rs, val) {
      assert forall x :: x in val <==> Lookup(rs, x).Some?;
    }
  }

  lemma AddedLookup(rs: seq<Record>, r: Record, x: string)
    requires UniqueIds(Added(rs, r))
    ensures Lookup(Added(rs, r), x) == if x == r.id then Some(r) else Lookup(rs, x)
  {
    var us := Added(rs, r);
    if x == r.id {
      IndexUnique(us, x, |rs|);
    } else if Has(rs, x) {
      IndexUnique(us, x, IndexOf(rs, x));
    }
  }

  lemma UpdatedLookup(rs: seq<Record>, r: Record, x: string)
    requires UniqueIds(rs)
    ensures UniqueIds(Updated(rs, r)) && Ids(Updated(rs, r)) == Ids(rs)
    ensures Lookup(Updated(rs, r), x) ==
            if x == r.id && Has(rs, x) then Some(r.(createdAt := Lookup(rs, x).value.createdAt))
            else Lookup(rs, x)
  {
    var us := Updated(rs, r);
    assert Ids(us) == Ids(rs);
    assert forall i :: 0 <= i < |rs| ==> us[i].id == rs[i].id;
    if Has(rs, x) {
      IndexUnique(us, x, IndexOf(rs, x));
    }
  }

  lemma DeletedLookup(rs: seq<Record>, id: string, x: string)
    requires UniqueIds(rs)
    ensures UniqueIds(Deleted(rs, id))
    ensures Lookup(Deleted(rs, id), x) == if x == id then None else Lookup(rs, x)
  {
    var us, i := Deleted(rs, id), IndexOf(rs, id);
    if Has(rs, x) && x != id {
      var k := IndexOf(rs, x);
      assert us[if k < i then k else k - 1].id == x;
    }
    if Has(us, x) {
      var k := IndexOf(us, x);
      IndexUnique(rs, x, if k < i then k else k + 1);
    }
  }

  lemma AddRefines(rs: seq<Record>, r: Record)
    requires UniqueIds(rs) && !Has(rs, r.id)
    ensures UniqueIds(Added(rs, r)) && Abs(Added(rs, r)) == ApplyMap(Abs(rs), Add(r))
  {
    assert Ids(Added(rs, r)) == Ids(rs) + [r.id];
    AbsLookups(rs, Abs(rs).val);
    hide Abs, Lookup;
    forall x
      ensures Lookup(Added(rs, r), x) == if x == r.id then Some(r) else Lookup(rs, x)
    {
      AddedLookup(rs, r, x);
    }
    AbsLookups(Added(rs, r), Abs(rs).val[r.id := r]);
    AbsOrder(rs);
    AbsOrder(Added(rs, r));
  }

  lemma AbsOrder(rs: seq<Record>)
    ensures Abs(rs).order == Ids(rs)
  {
  }

  lemma UpdateRefines(rs: seq<Record>, r: Record)
    requires UniqueIds(rs)
    ensures UniqueIds(Updated(rs, r)) && Abs(Updated(rs, r)) == ApplyMap(Abs(rs), Update(r))
  {
    AbsLookups(rs, Abs(rs).val);
    assert Has(rs, r.id) == Lookup(rs, r.id).Some?;
    hide Abs, Lookup, Updated, Has, UniqueIds;
    forall x
      ensures UniqueIds(Updated(rs, r)) && Ids(Updated(rs, r)) == Ids(rs)
      ensures Lookup(Updated(rs, r), x) ==
              if x == r.id && Has(rs, x) then Some(r.(createdAt := Lookup(rs, x).value.createdAt))
              else Lookup(rs, x)
    {
      UpdatedLookup(rs, r, x);
    }
    UpdatedLookup(rs, r, r.id);
    AbsLookups(Updated(rs, r), ApplyMap(Abs(rs), Update(r)).val);
    AbsOrder(rs);
    AbsOrder(Updated(rs, r));
  }

  lemma DeletedIds(rs: seq<Record>, id: string)
    requires UniqueIds(rs)
    ensures Ids(Deleted(rs, id)) == if Has(rs, id) then Without(Ids(rs), id) else Ids(rs)
  {
    var us, i := Deleted(rs, id), IndexOf(rs, id);
    if i < |rs| {
      assert Ids(rs) == Ids(rs)[..i] + [id] + Ids(rs)[i + 1..];
      assert Ids(us) == Ids(rs)[..i] + Ids(rs)[i + 1..];
      WithoutSplit(Ids(rs)[..i], id, Ids(rs)[i + 1..]);
    }
  }

  lemma DeleteRefines(rs: seq<Record>, id: string)
    requires UniqueIds(rs)
    ensures UniqueIds(Deleted(rs, id)) && Abs(Deleted(rs, id)) == ApplyMap(Abs(rs), Delete(id))
  {
    hide Abs, Deleted, UniqueIds, Without, IndexOf;
    var m, us := Abs(rs), Deleted(rs, id);
    AbsLookups(rs, m.val);
    AbsOrder(rs);
    AbsOrder(us);
    DeletedIds(rs, id);
    DeletedLookup(rs, id, id);
    var val := if id in m.val then m.val - {id} else m.val;
    forall x
      ensures Lookup(us, x) == if x in val then Some(val[x]) else None
    {
      DeletedLookup(rs, id, x);
      assert Lookup(rs, x) == if x in m.val then Some(m.val[x]) else None;
      hide Lookup;
    }
    AbsLookups(us, val);
    assert Has(rs, id) == Lookup(rs, id).Some? == (id in m.val);
    hide Lookup, SameLookups;
    assert ApplyMap(m, Delete(id)) == OrderedMap(Ids(us), val);
  }

  /** Under every sequence of operations with fresh ids the list behaves as an
    * insertion-ordered map. */
  lemma {:induction false} ListRefinesMap(rs: seq<Record>, ops: seq<Op>)
    requires UniqueIds(rs) && FreshIds(rs, ops)
    ensures UniqueIds(RunList(rs, ops))
    ensures Abs(RunList(rs, ops)) == RunMap(Abs(rs), ops)
  {
    if ops != [] {
      var before := ops[..|ops| - 1];
      assert forall k :: 0 <= k < |before| ==> before[..k] == ops[..k];
      ListRefinesMap(rs, before);
      hide Abs;
      match ops[|ops| - 1]
      case Add(r) => AddRefines(RunList(rs, before), r);
      case Update(r) => UpdateRefines(RunList(rs, before), r);
      case Delete(id) => DeleteRefines(RunList(rs, before), id);
    }
  }

  /** The clock does not run backwards between the adds. */
  ghost predicate ClockSteady(rs: seq<Record>, ops: seq<Op>) {
    forall k, r :: 0 <= k < |ops| && ops[k].Add? && r in RunList(rs, ops[..k]) ==>
                     r.createdAt <= ops[k].r.createdAt
  }

  /** Then the list stays sorted by creation time, so listing it sorted keeps the
    * insertion order. */
  lemma {:induction false} StaysSorted(rs: seq<Record>, ops: seq<Op>)
    requires SortedByCreation(rs) && ClockSteady(rs, ops)
    ensures SortedByCreation(RunList(rs, ops))
  {
    if ops != [] {
      var n := |ops| - 1;
      assert forall k :: 0 <= k < n ==> ops[..n][..k] == ops[..k];
      StaysSorted(rs, ops[..n]);
      assert ops[..n] == ops[..|ops| - 1];
      ApplySorted(RunList(rs, ops[..n]), ops[n]);
    }
  }

  lemma ApplySorted(rs: seq<Record>, op: Op)
    requires SortedByCreation(rs)
    requires op.Add? ==> forall r :: r in rs ==> r.createdAt <= op.r.createdAt
    ensures SortedByCreation(ApplyList(rs, op))
  {
    if op.Add? {
      assert forall i :: 0 <= i < |rs| ==> rs[i] in rs;
    }
  }
}
