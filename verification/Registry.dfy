/** The protocol registry of internal/protocol/taxonomy.go: validation, three indexes kept in step, a
    server-side order, and negotiation. */
module Registry {
  import opened Options

  type Id = string
  type Class = string

  datatype Adapter = Adapter(id: Id, class_: Class, wireName: string, displayName: string, priority: int)

  const ClassById: map<Id, Class> := map[
    "ingest.rtsp" := "ingest",
    "control.http" := "control",
    "internal_transport.relay_flv" := "internal_transport",
    "internal_transport.grpc_stream" := "internal_transport",
    "delivery.webrtc" := "delivery",
    "delivery.hls" := "delivery",
    "restream.rtsp" := "restream",
    "storage.recorder" := "storage",
    "storage.object_storage" := "storage"]

  const ValidClasses: set<Class> := {"ingest", "control", "internal_transport", "delivery", "restream", "storage"}

  datatype Problem =
    | IdMissing | ClassMissing | ClassInvalid | WireNameMissing | NegativePriority
    | WrongClass(expected: Class)
    | IdTaken
    | WireNameTaken(holder: Id)

  /** Validate: the first broken rule. */
  function Validate(a: Adapter): Option<Problem> {
    if a.id == "" then Some(IdMissing)
    else if a.class_ == "" then Some(ClassMissing)
    else if a.class_ !in ValidClasses then Some(ClassInvalid)
    else if a.wireName == "" then Some(WireNameMissing)
    else if a.priority < 0 then Some(NegativePriority)
    else if a.id in ClassById && ClassById[a.id] != a.class_ then Some(WrongClass(ClassById[a.id]))
    else None
  }

  /** Exactly what a valid adapter is. */
  lemma ValidExactly(a: Adapter)
    ensures Validate(a) == None <==>
              && a.id != "" && a.wireName != "" && a.priority >= 0
              && a.class_ in {"ingest", "control", "internal_transport", "delivery", "restream", "storage"}
              && (a.id == "ingest.rtsp" ==> a.class_ == "ingest")
              && (a.id == "control.http" ==> a.class_ == "control")
              && (a.id == "internal_transport.relay_flv" ==> a.class_ == "internal_transport")
              && (a.id == "internal_transport.grpc_stream" ==> a.class_ == "internal_transport")
              && (a.id == "delivery.webrtc" ==> a.class_ == "delivery")
              && (a.id == "delivery.hls" ==> a.class_ == "delivery")
              && (a.id == "restream.rtsp" ==> a.class_ == "restream")
              && (a.id == "storage.recorder" ==> a.class_ == "storage")
              && (a.id == "storage.object_storage" ==> a.class_ == "storage")
  {
  }

  // ---- the order -------------------------------------------------------------------------

  predicate StringLess(a: string, b: string) {
    b != [] && (a == [] || a[0] < b[0] || (a[0] == b[0] && StringLess(a[1..], b[1..])))
  }

  lemma {:induction false} StringLessTotal(a: string, b: string)
    ensures StringLess(a, b) || a == b || StringLess(b, a)
    ensures !(StringLess(a, b) && StringLess(b, a)) && !StringLess(a, a)
  {
    if a != [] && b != [] {
      StringLessTotal(a[1..], b[1..]);
      assert a == [a[0]] + a[1..] && b == [b[0]] + b[1..];
    }
    if a != [] { StringLessTotal(a[1..], a[1..]); }
  }

  lemma {:induction false} StringLessTransitive(a: string, b: string, c: string)
    requires StringLess(a, b) && StringLess(b, c)
    ensures StringLess(a, c)
  {
    if a != [] && a[0] == b[0] == c[0] { StringLessTransitive(a[1..], b[1..], c[1..]); }
  }

  /** By positions: the first difference decides, or the end of the shorter. */
  lemma {:induction false} StringLessMeans(a: string, b: string)
    ensures StringLess(a, b) <==>
              exists k | 0 <= k <= |a| && k <= |b| :: a[..k] == b[..k] && k < |b| && (k < |a| ==> a[k] < b[k])
  {
    if StringLess(a, b) {
      if a == [] || a[0] < b[0] {
        assert a[..0] == b[..0];
      } else {
        StringLessMeans(a[1..], b[1..]);
        var k :| 0 <= k <= |a| - 1 && k <= |b| - 1 && a[1..][..k] == b[1..][..k] && k < |b| - 1 && (k < |a| - 1 ==> a[1..][k] < b[1..][k]);
        assert a[..k + 1] == [a[0]] + a[1..][..k] && b[..k + 1] == [b[0]] + b[1..][..k];
        assert a[..k + 1] == b[..k + 1] && (k + 1 < |a| ==> a[k + 1] < b[k + 1]);
      }
    }
    if exists k | 0 <= k <= |a| && k <= |b| :: a[..k] == b[..k] && k < |b| && (k < |a| ==> a[k] < b[k]) {
      var k :| 0 <= k <= |a| && k <= |b| && a[..k] == b[..k] && k < |b| && (k < |a| ==> a[k] < b[k]);
      if k > 0 {
        assert a[0] == a[..k][0] == b[..k][0] == b[0];
        assert a[1..][..k - 1] == a[..k][1..] == b[..k][1..] == b[1..][..k - 1];
        StringLessMeans(a[1..], b[1..]);
      }
    }
  }

  /** Server preference: priority, then id. */
  predicate Before(a: Adapter, b: Adapter) { a.priority < b.priority || (a.priority == b.priority && StringLess(a.id, b.id)) }

  lemma BeforeTotal(a: Adapter, b: Adapter)
    ensures Before(a, b) || a.id == b.id || Before(b, a)
    ensures !(Before(a, b) && Before(b, a)) && !Before(a, a)
  {
    StringLessTotal(a.id, b.id);
    StringLessTotal(a.id, a.id);
  }

  lemma BeforeTransitive(a: Adapter, b: Adapter, c: Adapter)
    requires Before(a, b) && Before(b, c)
    ensures Before(a, c)
  {
    if a.priority == b.priority == c.priority { StringLessTransitive(a.id, b.id, c.id); }
  }

  type Table = map<Id, Adapter>

  predicate Increasing(t: Table, ids: seq<Id>) {
    && (forall id <- ids :: id in t && t[id].id == id)
    && forall i, j | 0 <= i < j < |ids| :: Before(t[ids[i]], t[ids[j]])
  }

  lemma IncreasingDistinct(t: Table, ids: seq<Id>)
    requires Increasing(t, ids)
    ensures forall i, j | 0 <= i < j < |ids| :: ids[i] != ids[j]
  {
    forall i, j | 0 <= i < j < |ids| ensures ids[i] != ids[j] { BeforeTotal(t[ids[i]], t[ids[j]]); }
  }

  lemma LeastFirst(t: Table, xs: seq<Id>, ys: seq<Id>)
    requires Increasing(t, xs) && Increasing(t, ys) && xs != [] && forall id :: id in xs <==> id in ys
    ensures ys != [] && xs[0] == ys[0]
  {
    assert xs[0] in ys && ys != [];
    assert ys[0] in xs;
    var i :| 0 <= i < |ys| && ys[i] == xs[0];
    var j :| 0 <= j < |xs| && xs[j] == ys[0];
    BeforeTotal(t[xs[0]], t[ys[0]]);
  }

  lemma SameTail(xs: seq<Id>, ys: seq<Id>)
    requires xs != [] && ys != [] && xs[0] == ys[0] && forall id :: id in xs <==> id in ys
    requires forall i, j | 0 <= i < j < |xs| :: xs[i] != xs[j]
    requires forall i, j | 0 <= i < j < |ys| :: ys[i] != ys[j]
    ensures forall id :: id in xs[1..] <==> id in ys[1..]
  {
    forall id ensures (id in xs[1..] <==> id in xs && id != xs[0]) && (id in ys[1..] <==> id in ys && id != ys[0]) {
      assert xs == [xs[0]] + xs[1..] && ys == [ys[0]] + ys[1..];
      if id in xs[1..] { var i :| 0 <= i < |xs| - 1 && xs[1..][i] == id; assert xs[i + 1] == id; }
      if id in ys[1..] { var i :| 0 <= i < |ys| - 1 && ys[1..][i] == id; assert ys[i + 1] == id; }
    }
  }

  /** One set of ids has one increasing listing. */
  lemma {:induction false} OneOrder(t: Table, xs: seq<Id>, ys: seq<Id>)
    requires Increasing(t, xs) && Increasing(t, ys) && forall id :: id in xs <==> id in ys
    ensures xs == ys
  {
    if xs == [] {
      if ys != [] { LeastFirst(t, ys, xs); }
    } else {
      LeastFirst(t, xs, ys);
      IncreasingDistinct(t, xs);
      IncreasingDistinct(t, ys);
      SameTail(xs, ys);
      OneOrder(t, xs[1..], ys[1..]);
      assert xs == [xs[0]] + xs[1..] && ys == [ys[0]] + ys[1..];
    }
  }

  // ---- what a registry stands for --------------------------------------------------------

  datatype Index = Index(byId: Table, idsByClass: map<Class, seq<Id>>, wireByClass: map<Class, map<string, Id>>)

  /** Adapters that can be registered together: each valid, no id twice, no wire name twice in a class. */
  predicate Compatible(s: seq<Adapter>) {
    && (forall a <- s :: Validate(a) == None)
    && (forall i, j | 0 <= i < j < |s| :: s[i].id != s[j].id)
    && (forall i, j | 0 <= i < j < |s| :: !(s[i].class_ == s[j].class_ && s[i].wireName == s[j].wireName))
  }

  predicate TableOf(t: Table, s: seq<Adapter>) {
    && (forall a <- s :: a.id in t && t[a.id] == a)
    && (forall id <- t :: t[id] in s && t[id].id == id)
  }

  /** The wire names of the classes lead exactly to the ids that have them. */
  predicate WiresAgree(x: Index) {
    && (forall c <- x.wireByClass, w <- x.wireByClass[c] ::
          var id := x.wireByClass[c][w]; id in x.byId && x.byId[id].class_ == c && x.byId[id].wireName == w)
    && (forall id <- x.byId ::
          var a := x.byId[id];
          a.class_ in x.wireByClass && a.wireName in x.wireByClass[a.class_] && x.wireByClass[a.class_][a.wireName] == id)
  }

  /** The class lists hold exactly the ids of their class, each once. */
  predicate ListsAgree(x: Index) {
    && (forall c <- x.idsByClass, id <- x.idsByClass[c] :: id in x.byId && x.byId[id].class_ == c)
    && (forall id <- x.byId :: x.byId[id].class_ in x.idsByClass && id in x.idsByClass[x.byId[id].class_])
    && (forall c <- x.idsByClass, i, j | 0 <= i < j < |x.idsByClass[c]| :: x.idsByClass[c][i] != x.idsByClass[c][j])
  }

  /** Only classes with an adapter are there. */
  predicate ClassesAgree(x: Index) {
    x.idsByClass.Keys == x.wireByClass.Keys && forall c <- x.idsByClass :: x.idsByClass[c] != []
  }

  predicate Consistent(x: Index) { WiresAgree(x) && ListsAgree(x) && ClassesAgree(x) }

  predicate Sorted(x: Index) { forall c <- x.idsByClass :: Increasing(x.byId, x.idsByClass[c]) }

  /** All three indexes agree with the adapters, the class lists in order. */
  predicate Represents(x: Index, s: seq<Adapter>) { TableOf(x.byId, s) && Consistent(x) && Sorted(x) }

  lemma OneTable(x: Table, y: Table, s: seq<Adapter>, s': seq<Adapter>)
    requires TableOf(x, s) && TableOf(y, s') && forall a :: a in s <==> a in s'
    ensures x == y
  {
  }

  lemma OneWireIndex(x: Index, y: Index, c: Class)
    requires WiresAgree(x) && WiresAgree(y) && x.byId == y.byId && c in x.wireByClass && c in y.wireByClass
    ensures x.wireByClass[c] == y.wireByClass[c]
  {
  }

  lemma SameClasses(x: Index, y: Index, c: Class)
    requires ListsAgree(x) && ClassesAgree(x) && ListsAgree(y) && x.byId == y.byId && c in x.idsByClass
    ensures c in y.idsByClass && forall id <- x.idsByClass[c] :: id in y.idsByClass[c]
  {
    assert x.idsByClass[c][0] in x.idsByClass[c];
    forall id <- x.idsByClass[c] ensures c in y.idsByClass && id in y.idsByClass[c] {
      assert id in y.byId && y.byId[id].class_ == c;
    }
  }

  /** The order of registration does not show: one set of adapters has one registry. */
  lemma OneRegistry(x: Index, y: Index, s: seq<Adapter>, s': seq<Adapter>)
    requires Represents(x, s) && Represents(y, s') && multiset(s) == multiset(s')
    ensures x == y
  {
    forall a ensures a in s <==> a in s' { assert a in multiset(s) <==> a in multiset(s'); }
    OneTable(x.byId, y.byId, s, s');
    forall c | c in x.idsByClass || c in y.idsByClass
      ensures c in x.idsByClass && c in y.idsByClass && x.idsByClass[c] == y.idsByClass[c]
    {
      if c in x.idsByClass { SameClasses(x, y, c); }
      if c in y.idsByClass { SameClasses(y, x, c); }
      OneOrder(x.byId, x.idsByClass[c], y.idsByClass[c]);
    }
    assert x.idsByClass == y.idsByClass;
    forall c <- x.wireByClass ensures x.wireByClass[c] == y.wireByClass[c] { OneWireIndex(x, y, c); }
    assert x.wireByClass == y.wireByClass;
  }

  // ---- entering an adapter ---------------------------------------------------------------

  function ListOf(x: Index, c: Class): seq<Id> { if c in x.idsByClass then x.idsByClass[c] else [] }

  function NamesOf(x: Index, c: Class): map<string, Id> { if c in x.wireByClass then x.wireByClass[c] else map[] }

  function Entered(x: Index, a: Adapter): Index {
    Index(x.byId[a.id := a],
          x.idsByClass[a.class_ := ListOf(x, a.class_) + [a.id]],
          x.wireByClass[a.class_ := NamesOf(x, a.class_)[a.wireName := a.id]])
  }

  lemma EnteredTable(t: Table, s: seq<Adapter>, a: Adapter)
    requires TableOf(t, s) && a.id !in t
    ensures TableOf(t[a.id := a], s + [a])
  {
  }

  lemma EnteredWires(x: Index, a: Adapter)
    requires WiresAgree(x) && a.id !in x.byId && a.wireName !in NamesOf(x, a.class_)
    ensures WiresAgree(Entered(x, a))
  {
  }

  lemma EnteredLists(x: Index, a: Adapter)
    requires ListsAgree(x) && a.id !in x.byId
    ensures ListsAgree(Entered(x, a))
  {
    var y := Entered(x, a);
    var l := ListOf(x, a.class_);
    assert a.id !in l;
    forall c <- y.idsByClass, i, j | 0 <= i < j < |y.idsByClass[c]| ensures y.idsByClass[c][i] != y.idsByClass[c][j] {
      if c == a.class_ { assert y.idsByClass[c] == l + [a.id]; }
    }
  }

  lemma EnteredConsistent(x: Index, a: Adapter)
    requires Consistent(x) && a.id !in x.byId && a.wireName !in NamesOf(x, a.class_)
    ensures Consistent(Entered(x, a))
  {
    EnteredWires(x, a);
    EnteredLists(x, a);
  }

  /** Whether a list is accepted does not depend on its order. */
  lemma AcceptanceIgnoresOrder(s: seq<Adapter>, s': seq<Adapter>)
    requires multiset(s) == multiset(s') && Compatible(s)
    ensures Compatible(s')
  {
    forall a <- s' ensures Validate(a) == None { assert a in multiset(s'); }
    forall i, j | 0 <= i < j < |s'|
      ensures s'[i].id != s'[j].id && !(s'[i].class_ == s'[j].class_ && s'[i].wireName == s'[j].wireName)
    {
      PairElsewhere(s', s, i, j);
    }
  }

  lemma {:induction false} TwiceAt(s: seq<Adapter>, a: Adapter) returns (i: nat, j: nat)
    requires multiset(s)[a] >= 2
    ensures i < j < |s| && s[i] == s[j] == a
  {
    var n := |s| - 1;
    assert s == s[..n] + [s[n]];
    if s[n] == a {
      assert a in multiset(s[..n]);
      i :| 0 <= i < n && s[..n][i] == a;
      j := n;
    } else {
      i, j := TwiceAt(s[..n], a);
    }
  }

  lemma PairCount(s: seq<Adapter>, i: nat, j: nat)
    requires i < j < |s| && s[i] == s[j]
    ensures multiset(s)[s[i]] >= 2
  {
    assert s == s[..j] + [s[j]] + s[j + 1..];
    assert s[..j][i] == s[i];
    assert multiset(s) == multiset(s[..j]) + multiset{s[j]} + multiset(s[j + 1..]);
  }

  /** Two positions of a list have their like in any rearrangement. */
  lemma PairElsewhere(s: seq<Adapter>, s': seq<Adapter>, i: nat, j: nat)
    requires multiset(s) == multiset(s') && i < j < |s|
    ensures exists k, l :: 0 <= k < l < |s'| && ((s'[k] == s[i] && s'[l] == s[j]) || (s'[k] == s[j] && s'[l] == s[i]))
  {
    if s[i] == s[j] {
      PairCount(s, i, j);
      var k, l := TwiceAt(s', s[i]);
    } else {
      assert s[i] in multiset(s') && s[j] in multiset(s');
      var k :| 0 <= k < |s'| && s'[k] == s[i];
      var l :| 0 <= l < |s'| && s'[l] == s[j];
      if k < l { assert s'[k] == s[i] && s'[l] == s[j]; } else { assert s'[l] == s[j] && s'[k] == s[i]; }
    }
  }

  // ---- negotiation -----------------------------------------------------------------------

  /** The client listed the adapter, by wire name or by id; empty entries do not count. */
  predicate Wanted(a: Adapter, client: seq<string>) {
    (a.wireName != "" && a.wireName in client) || (a.id != "" && a.id in client)
  }

  predicate Candidate(s: seq<Adapter>, class_: Class, client: seq<string>, a: Adapter) {
    a in s && a.class_ == class_ && Wanted(a, client)
  }

  /** The answer negotiation owes: the least candidate, or none when there is none. */
  ghost predicate IsAnswer(s: seq<Adapter>, class_: Class, client: seq<string>, r: Option<Adapter>) {
    match r
    case None => forall a <- s :: !Candidate(s, class_, client, a)
    case Some(a) => Candidate(s, class_, client, a) && forall b <- s :: Candidate(s, class_, client, b) && b != a ==> Before(a, b)
  }

  /** What that means: no adapter of the class that the client listed has a lower priority number, and of
      those with the same one none has a smaller id. */
  lemma AnswerMeans(s: seq<Adapter>, class_: Class, client: seq<string>, r: Option<Adapter>)
    requires IsAnswer(s, class_, client, r)
    ensures r.Some? ==>
              && r.value in s && r.value.class_ == class_
              && ((r.value.wireName != "" && r.value.wireName in client) || (r.value.id != "" && r.value.id in client))
              && forall b <- s | b != r.value && b.class_ == class_
                                 && ((b.wireName != "" && b.wireName in client) || (b.id != "" && b.id in client)) ::
                   r.value.priority < b.priority || (r.value.priority == b.priority && StringLess(r.value.id, b.id))
    ensures r.None? ==>
              forall b <- s | b.class_ == class_ :: !(b.wireName != "" && b.wireName in client) && !(b.id != "" && b.id in client)
  {
  }

  /** There is only one such answer. */
  lemma OneAnswer(s: seq<Adapter>, class_: Class, client: seq<string>, r: Option<Adapter>, r': Option<Adapter>)
    requires IsAnswer(s, class_, client, r) && IsAnswer(s, class_, client, r')
    ensures r == r'
  {
    if r.Some? && r'.Some? { BeforeTotal(r.value, r'.value); }
  }

  // ---- the registry object ---------------------------------------------------------------

  class ProtocolRegistry {
    var byId: Table
    var idsByClass: map<Class, seq<Id>>
    var wireByClass: map<Class, map<string, Id>>

    function State(): Index reads this { Index(byId, idsByClass, wireByClass) }

    constructor ()
      ensures State() == Index(map[], map[], map[])
    {
      byId, idsByClass, wireByClass := map[], map[], map[];
    }

    /** register: refused with the first reason found and nothing changed, or entered in all three
        indexes. */
    method Register(a: Adapter, ghost s: seq<Adapter>) returns (problem: Option<Problem>)
      requires TableOf(byId, s) && Consistent(State()) && Compatible(s)
      modifies this
      ensures problem == None <==> Compatible(s + [a])
      ensures problem == None ==> TableOf(byId, s + [a]) && Consistent(State())
      ensures problem != None ==> State() == old(State())
      ensures Validate(a) != None ==> problem == Validate(a)
      ensures problem == Some(IdTaken) ==> exists b <- s :: b.id == a.id
      ensures problem.Some? && problem.value.WireNameTaken? ==>
                exists b <- s :: b.class_ == a.class_ && b.wireName == a.wireName && b.id == problem.value.holder
    {
      problem := Validate(a);
      if problem != None {
        assert (s + [a])[|s|] == a;
        return;
      }
      if a.id in byId {
        problem := Some(IdTaken);
        assert byId[a.id] in s && byId[a.id].id == a.id;
        Clash(s, a, byId[a.id]);
        return;
      }
      if a.class_ in wireByClass && a.wireName in wireByClass[a.class_] {
        var holder := wireByClass[a.class_][a.wireName];
        problem := Some(WireNameTaken(holder));
        assert byId[holder] in s && byId[holder].id == holder;
        Clash(s, a, byId[holder]);
        return;
      }
      NoClash(State(), s, a);
      EnteredTable(byId, s, a);
      EnteredConsistent(State(), a);
      Enter(a);
    }

    method Enter(a: Adapter)
      modifies this
      ensures State() == Entered(old(State()), a)
    {
      if a.class_ !in wireByClass {
        wireByClass := wireByClass[a.class_ := map[]];
      }
      byId := byId[a.id := a];
      idsByClass := idsByClass[a.class_ := (if a.class_ in idsByClass then idsByClass[a.class_] else []) + [a.id]];
      wireByClass := wireByClass[a.class_ := wireByClass[a.class_][a.wireName := a.id]];
    }

    /** Inserting an id before the first that it precedes. */
    method Insert(sorted: seq<Id>, id: Id) returns (r: seq<Id>)
      requires Increasing(byId, sorted) && id in byId && byId[id].id == id && id !in sorted
      ensures Increasing(byId, r) && forall x :: x in r <==> x in sorted || x == id
    {
      var k := |sorted|;
      while k > 0 && Before(byId[id], byId[sorted[k - 1]])
        invariant 0 <= k <= |sorted|
        invariant forall x <- sorted[k..] :: Before(byId[id], byId[x])
      {
        k := k - 1;
        assert sorted[k..] == [sorted[k]] + sorted[k + 1..];
      }
      r := sorted[..k] + [id] + sorted[k..];
      assert sorted == sorted[..k] + sorted[k..];
      InsertedAt(byId, sorted, id, k);
    }

    method Sort(ids: seq<Id>) returns (r: seq<Id>)
      requires forall id <- ids :: id in byId && byId[id].id == id
      requires forall i, j | 0 <= i < j < |ids| :: ids[i] != ids[j]
      ensures Increasing(byId, r) && forall x :: x in r <==> x in ids
    {
      r := [];
      var i := 0;
      while i < |ids|
        invariant i <= |ids| && Increasing(byId, r) && forall x :: x in r <==> x in ids[..i]
      {
        assert ids[..i + 1] == ids[..i] + [ids[i]];
        r := Insert(r, ids[i]);
        i := i + 1;
      }
      assert ids[..|ids|] == ids;
    }

    /** Sorting one class's list in place. */
    method SortClass(c: Class, ghost s: seq<Adapter>)
      requires TableOf(byId, s) && Consistent(State()) && c in idsByClass
      modifies this`idsByClass
      ensures Consistent(State()) && Increasing(byId, idsByClass[c])
      ensures idsByClass == old(idsByClass)[c := idsByClass[c]]
    {
      var ids := Sort(idsByClass[c]);
      IncreasingDistinct(byId, ids);
      assert ids != [] by { assert idsByClass[c][0] in ids; }
      SortedLists(State(), c, ids);
      idsByClass := idsByClass[c := ids];
    }

    method RegisterAll(adapters: seq<Adapter>) returns (problem: Option<Problem>)
      requires State() == Index(map[], map[], map[])
      modifies this
      ensures problem == None <==> Compatible(adapters)
      ensures problem == None ==> TableOf(byId, adapters) && Consistent(State())
    {
      var i := 0;
      while i < |adapters|
        invariant i <= |adapters| && Compatible(adapters[..i])
        invariant TableOf(byId, adapters[..i]) && Consistent(State())
      {
        assert adapters[..i + 1] == adapters[..i] + [adapters[i]];
        problem := Register(adapters[i], adapters[..i]);
        if problem != None {
          CompatiblePrefix(adapters, i + 1);
          return;
        }
        i := i + 1;
      }
      assert adapters[..|adapters|] == adapters;
      problem := None;
    }

    method SortAll(ghost s: seq<Adapter>)
      requires TableOf(byId, s) && Consistent(State())
      modifies this`idsByClass
      ensures Represents(State(), s)
    {
      var left := idsByClass.Keys;
      while left != {}
        invariant left <= idsByClass.Keys && Consistent(State())
        invariant forall c <- idsByClass.Keys - left :: Increasing(byId, idsByClass[c])
        decreases left
      {
        var c :| c in left;
        SortClass(c, s);
        left := left - {c};
      }
    }

    /** NewRegistry succeeds exactly for compatible adapters, and then all three indexes agree with
        them, every class in server order. */
    static method NewRegistry(adapters: seq<Adapter>) returns (r: ProtocolRegistry?, problem: Option<Problem>)
      ensures problem == None <==> Compatible(adapters)
      ensures r != null <==> problem == None
      ensures r != null ==> fresh(r) && Represents(r.State(), adapters)
    {
      var registry := new ProtocolRegistry();
      problem := registry.RegisterAll(adapters);
      if problem != None {
        return null, problem;
      }
      registry.SortAll(adapters);
      r := registry;
    }

    method Lookup(id: Id, ghost s: seq<Adapter>) returns (r: Option<Adapter>)
      requires Represents(State(), s)
      ensures r.Some? ==> r.value in s && r.value.id == id
      ensures r.None? ==> forall a <- s :: a.id != id
    {
      r := if id in byId then Some(byId[id]) else None;
    }

    method LookupWire(c: Class, wireName: string, ghost s: seq<Adapter>) returns (r: Option<Adapter>)
      requires Represents(State(), s)
      ensures r.Some? ==> r.value in s && r.value.class_ == c && r.value.wireName == wireName
      ensures r.None? ==> forall a <- s :: !(a.class_ == c && a.wireName == wireName)
    {
      if c !in wireByClass || wireName !in wireByClass[c] {
        forall a <- s ensures !(a.class_ == c && a.wireName == wireName) { assert byId[a.id] == a; }
        return None;
      }
      r := Lookup(wireByClass[c][wireName], s);
      assert byId[wireByClass[c][wireName]] in s;
    }

    /** The adapters of a class, each once, in server order. */
    method AdaptersForClass(c: Class, ghost s: seq<Adapter>) returns (out: seq<Adapter>)
      requires Represents(State(), s)
      ensures forall i, j | 0 <= i < j < |out| :: Before(out[i], out[j])
      ensures forall a :: a in out <==> a in s && a.class_ == c
    {
      var ids := if c in idsByClass then idsByClass[c] else [];
      assert forall id <- ids :: id in byId;
      out := Gather(ids);
      ListedAdapters(State(), s, c, out);
    }

    method Gather(ids: seq<Id>) returns (out: seq<Adapter>)
      requires forall id <- ids :: id in byId
      ensures |out| == |ids| && forall j | 0 <= j < |ids| :: ids[j] in byId && out[j] == byId[ids[j]]
    {
      out := [];
      var i := 0;
      while i < |ids|
        invariant i <= |ids| && |out| == i
        invariant forall j | 0 <= j < i :: ids[j] in byId && out[j] == byId[ids[j]]
      {
        out := out + [byId[ids[i]]];
        i := i + 1;
      }
    }

    /** The first adapter in server order that the client listed: the unique least candidate. */
    method Negotiate(c: Class, client: seq<string>, ghost s: seq<Adapter>) returns (r: Option<Adapter>)
      requires Represents(State(), s)
      ensures IsAnswer(s, c, client, r)
    {
      var supported := Supported(client);
      var adapters := AdaptersForClass(c, s);
      r := First(adapters, supported);
      AnswerListed(s, c, client, supported, adapters, r);
    }
  }

  predicate Shared(a: Adapter, supported: set<string>) { a.wireName in supported || a.id in supported }

  /** The first adapter that the client shares. */
  method First(adapters: seq<Adapter>, supported: set<string>) returns (r: Option<Adapter>)
    ensures r.None? ==> forall a <- adapters :: !Shared(a, supported)
    ensures r.Some? ==>
              exists i | 0 <= i < |adapters| ::
                r.value == adapters[i] && Shared(adapters[i], supported) && forall j | 0 <= j < i :: !Shared(adapters[j], supported)
  {
    var i := 0;
    while i < |adapters|
      invariant i <= |adapters| && forall j | 0 <= j < i :: !Shared(adapters[j], supported)
    {
      if adapters[i].wireName in supported || adapters[i].id in supported {
        return Some(adapters[i]);
      }
      i := i + 1;
    }
    r := None;
  }

  lemma AnswerListed(s: seq<Adapter>, c: Class, client: seq<string>, supported: set<string>, adapters: seq<Adapter>, r: Option<Adapter>)
    requires forall p :: p in supported <==> p != "" && p in client
    requires forall a :: a in adapters <==> a in s && a.class_ == c
    requires forall i, j | 0 <= i < j < |adapters| :: Before(adapters[i], adapters[j])
    requires r.None? ==> forall a <- adapters :: !Shared(a, supported)
    requires r.Some? ==>
               exists i | 0 <= i < |adapters| ::
                 r.value == adapters[i] && Shared(adapters[i], supported) && forall j | 0 <= j < i :: !Shared(adapters[j], supported)
    ensures IsAnswer(s, c, client, r)
  {
    forall a ensures Shared(a, supported) <==> Wanted(a, client) {}
    if r.Some? {
      var i :| 0 <= i < |adapters| && r.value == adapters[i] && Shared(adapters[i], supported)
               && forall j | 0 <= j < i :: !Shared(adapters[j], supported);
      FirstWanted(s, c, client, adapters, i);
    }
  }

  /** The names the client listed, but for empty ones. */
  method Supported(client: seq<string>) returns (supported: set<string>)
    ensures forall p :: p in supported <==> p != "" && p in client
  {
    supported := {};
    var i := 0;
    while i < |client|
      invariant i <= |client| && forall p :: p in supported <==> p != "" && p in client[..i]
    {
      assert client[..i + 1] == client[..i] + [client[i]];
      if client[i] != "" {
        supported := supported + {client[i]};
      }
      i := i + 1;
    }
    assert client[..|client|] == client;
  }

  lemma FirstWanted(s: seq<Adapter>, c: Class, client: seq<string>, adapters: seq<Adapter>, i: nat)
    requires i < |adapters| && Wanted(adapters[i], client) && forall j | 0 <= j < i :: !Wanted(adapters[j], client)
    requires forall a :: a in adapters <==> a in s && a.class_ == c
    requires forall i, j | 0 <= i < j < |adapters| :: Before(adapters[i], adapters[j])
    ensures IsAnswer(s, c, client, Some(adapters[i]))
  {
    assert adapters[i] in adapters;
    forall b <- s | Candidate(s, c, client, b) && b != adapters[i] ensures Before(adapters[i], b) {
      assert b in adapters;
      var j :| 0 <= j < |adapters| && adapters[j] == b;
    }
  }

  lemma ListedMembers(x: Index, s: seq<Adapter>, c: Class, id: Id)
    requires Represents(x, s)
    ensures id in ListOf(x, c) <==> id in x.byId && x.byId[id].class_ == c
  {
  }

  lemma ListedAdapters(x: Index, s: seq<Adapter>, c: Class, out: seq<Adapter>)
    requires Represents(x, s) && |out| == |ListOf(x, c)|
    requires forall j | 0 <= j < |out| :: ListOf(x, c)[j] in x.byId && out[j] == x.byId[ListOf(x, c)[j]]
    ensures forall i, j | 0 <= i < j < |out| :: Before(out[i], out[j])
    ensures forall a :: a in out <==> a in s && a.class_ == c
  {
    var ids := ListOf(x, c);
    forall id ensures id in ids <==> id in x.byId && x.byId[id].class_ == c { ListedMembers(x, s, c, id); }
    ListedExactly(x.byId, s, c, ids, out);
  }

  lemma ListedExactly(t: Table, s: seq<Adapter>, c: Class, ids: seq<Id>, out: seq<Adapter>)
    requires TableOf(t, s) && |out| == |ids| && forall id :: id in ids <==> id in t && t[id].class_ == c
    requires forall j | 0 <= j < |out| :: ids[j] in t && out[j] == t[ids[j]]
    ensures forall a :: a in out <==> a in s && a.class_ == c
  {
    forall a | a in s && a.class_ == c ensures a in out {
      assert t[a.id] == a && a.id in ids;
      var j :| 0 <= j < |ids| && ids[j] == a.id;
      assert out[j] == a;
    }
    forall a <- out ensures a in s && a.class_ == c {
      var j :| 0 <= j < |out| && out[j] == a;
      assert ids[j] in ids;
    }
  }

  lemma SortedDistinct(lists: map<Class, seq<Id>>, c: Class, ids: seq<Id>)
    requires forall d <- lists, i, j | 0 <= i < j < |lists[d]| :: lists[d][i] != lists[d][j]
    requires forall i, j | 0 <= i < j < |ids| :: ids[i] != ids[j]
    ensures var y := lists[c := ids]; forall d <- y, i, j | 0 <= i < j < |y[d]| :: y[d][i] != y[d][j]
  {
  }

  lemma SortedMembers(lists: map<Class, seq<Id>>, c: Class, ids: seq<Id>)
    requires c in lists && forall id :: id in ids <==> id in lists[c]
    ensures var y := lists[c := ids]; y.Keys == lists.Keys && forall d <- y, id :: id in y[d] <==> id in lists[d]
  {
  }

  lemma SortedLists(x: Index, c: Class, ids: seq<Id>)
    requires Consistent(x) && c in x.idsByClass && ids != []
    requires forall id :: id in ids <==> id in x.idsByClass[c]
    requires forall i, j | 0 <= i < j < |ids| :: ids[i] != ids[j]
    ensures Consistent(x.(idsByClass := x.idsByClass[c := ids]))
  {
    var y := x.(idsByClass := x.idsByClass[c := ids]);
    SortedMembers(x.idsByClass, c, ids);
    SortedDistinct(x.idsByClass, c, ids);
    assert WiresAgree(y) && ClassesAgree(y);
    forall d <- y.idsByClass, id <- y.idsByClass[d] ensures id in y.byId && y.byId[id].class_ == d {
      assert id in x.idsByClass[d];
    }
    forall id <- y.byId ensures y.byId[id].class_ in y.idsByClass && id in y.idsByClass[y.byId[id].class_] {
      assert id in x.idsByClass[x.byId[id].class_];
    }
  }

  lemma CompatiblePrefix(s: seq<Adapter>, n: nat)
    requires n <= |s|
    ensures Compatible(s) ==> Compatible(s[..n])
  {
  }

  /** Negotiation does not depend on the order of registration either. */
  lemma NegotiationIgnoresOrder(s: seq<Adapter>, s': seq<Adapter>, c: Class, client: seq<string>, r: Option<Adapter>)
    requires multiset(s) == multiset(s')
    ensures IsAnswer(s, c, client, r) <==> IsAnswer(s', c, client, r)
  {
    forall a ensures a in s <==> a in s' { assert a in multiset(s) <==> a in multiset(s'); }
  }

  lemma InsertedAt(t: Table, sorted: seq<Id>, id: Id, k: nat)
    requires Increasing(t, sorted) && id in t && t[id].id == id && id !in sorted && k <= |sorted|
    requires k > 0 ==> !Before(t[id], t[sorted[k - 1]])
    requires forall x <- sorted[k..] :: Before(t[id], t[x])
    ensures Increasing(t, sorted[..k] + [id] + sorted[k..])
  {
    var r := sorted[..k] + [id] + sorted[k..];
    forall i | 0 <= i < k ensures Before(t[sorted[i]], t[id]) {
      BeforeTotal(t[sorted[k - 1]], t[id]);
      if i < k - 1 { BeforeTransitive(t[sorted[i]], t[sorted[k - 1]], t[id]); }
    }
    forall i, j | 0 <= i < j < |r| ensures Before(t[r[i]], t[r[j]]) {
      if i < k && j > k { assert r[i] == sorted[i] && r[j] == sorted[j - 1]; }
      if i < k && j < k { assert r[i] == sorted[i] && r[j] == sorted[j]; }
      if i == k { assert r[j] in sorted[k..]; }
      if i > k { assert r[i] == sorted[i - 1] && r[j] == sorted[j - 1]; }
    }
  }

  lemma Clash(s: seq<Adapter>, a: Adapter, b: Adapter)
    requires b in s && (a.id == b.id || (a.class_ == b.class_ && a.wireName == b.wireName))
    ensures !Compatible(s + [a])
  {
    var i :| 0 <= i < |s| && s[i] == b;
    var t := s + [a];
    assert t[i] == b && t[|s|] == a;
  }

  lemma NoClash(x: Index, s: seq<Adapter>, a: Adapter)
    requires TableOf(x.byId, s) && WiresAgree(x) && Compatible(s) && Validate(a) == None
    requires a.id !in x.byId && a.wireName !in NamesOf(x, a.class_)
    ensures Compatible(s + [a])
  {
    var t := s + [a];
    forall i | 0 <= i < |s| ensures s[i].id != a.id && !(s[i].class_ == a.class_ && s[i].wireName == a.wireName) {
      assert s[i] in s;
      assert s[i].id in x.byId;
    }
    forall i, j | 0 <= i < j < |t| ensures t[i].id != t[j].id && !(t[i].class_ == t[j].class_ && t[i].wireName == t[j].wireName) {
      if j < |s| { assert t[i] == s[i] && t[j] == s[j]; }
    }
  }
}
