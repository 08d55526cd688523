/** The model registry: one adapter per route, sealed once, identified by a fingerprint. */
module Registry {
  import opened Wrappers
  import opened Sorting
  import opened CanonicalJson

  datatype Decl = Decl(route: string, api: string, baseUrl: string, other: string)
  datatype Model = Model(id: string, record: string)
  datatype Adapter = Adapter(id: string, routes: seq<Decl>)

  /** A route as claimed by the adapter at a position. */
  datatype Entry = Entry(adapter: nat, decl: Decl)

  /** What each adapter offers on each route at one moment. */
  type Catalogue = (nat, string) -> seq<Model>

  // ----- Building the table -----------------------------------------------------------------

  datatype Built =
    | Table(order: seq<string>, table: map<string, Entry>)
    | DuplicateRoute(route: string, first: string, second: string)

  /** All claims, adapter by adapter. */
  function Claims(adapters: seq<Adapter>): (claims: seq<Entry>)
    ensures forall e :: e in claims ==> e.adapter < |adapters|
  {
    if adapters == [] then []
    else
      var n := |adapters| - 1;
      Claims(adapters[..n]) + ClaimsOf(n, adapters[n].routes)
  }

  function ClaimsOf(adapter: nat, decls: seq<Decl>): (claims: seq<Entry>)
    ensures |claims| == |decls| && forall i :: 0 <= i < |decls| ==> claims[i] == Entry(adapter, decls[i])
  {
    seq(|decls|, i requires 0 <= i < |decls| => Entry(adapter, decls[i]))
  }

  predicate OneClaimEach(claims: seq<Entry>) {
    forall i, j :: 0 <= i < j < |claims| ==> claims[i].decl.route != claims[j].decl.route
  }

  /** The table of a list of claims: its routes in order, and who claims each. */
  ghost predicate Tabulates(order: seq<string>, table: map<string, Entry>, claims: seq<Entry>) {
    && |order| == |claims| && OneClaimEach(claims)
    && (forall i :: 0 <= i < |claims| ==>
          order[i] == claims[i].decl.route && order[i] in table && table[order[i]] == claims[i])
    && (forall route :: route in table ==> route in order)
  }

  /** The first route claimed twice, and both adapters that claim it. */
  ghost predicate Conflict(adapters: seq<Adapter>, r: Built)
    requires r.DuplicateRoute?
  {
    exists i, j ::
      && 0 <= i < j < |Claims(adapters)|
      && OneClaimEach(Claims(adapters)[..j])
      && Claims(adapters)[i].decl.route == r.route == Claims(adapters)[j].decl.route
      && adapters[Claims(adapters)[i].adapter].id == r.first
      && adapters[Claims(adapters)[j].adapter].id == r.second
  }

  lemma TableGrows(order: seq<string>, table: map<string, Entry>, claims: seq<Entry>, e: Entry)
    requires Tabulates(order, table, claims) && e.decl.route !in table
    ensures Tabulates(order + [e.decl.route], table[e.decl.route := e], claims + [e])
  {
  }

  lemma ClaimPosition(adapters: seq<Adapter>, n: nat, k: nat)
    requires n < |adapters| && k < |adapters[n].routes|
    ensures
      var before := Claims(adapters[..n]) + ClaimsOf(n, adapters[n].routes[..k]);
      before + [Entry(n, adapters[n].routes[k])] <= Claims(adapters)
  {
    ClaimsPrefix(adapters, n + 1);
    assert adapters[..n + 1][..n] == adapters[..n];
    var all := ClaimsOf(n, adapters[n].routes);
    assert all[..k] == ClaimsOf(n, adapters[n].routes[..k]);
    assert all[..k + 1] == all[..k] + [all[k]];
  }

  lemma {:induction false} ClaimsPrefix(adapters: seq<Adapter>, n: nat)
    requires n <= |adapters|
    ensures Claims(adapters[..n]) <= Claims(adapters)
    decreases |adapters|
  {
    if n < |adapters| {
      var m := |adapters| - 1;
      ClaimsPrefix(adapters[..m], n);
      assert adapters[..m][..n] == adapters[..n];
    } else {
      assert adapters[..n] == adapters;
    }
  }

  /** Rejects the whole batch at the first route claimed twice. */
  method BuildTable(adapters: seq<Adapter>) returns (r: Built)
    ensures r.Table? <==> OneClaimEach(Claims(adapters))
    ensures r.Table? ==> Tabulates(r.order, r.table, Claims(adapters))
    ensures r.DuplicateRoute? ==> Conflict(adapters, r)
  {
    var order: seq<string>, table: map<string, Entry> := [], map[];
    for n := 0 to |adapters|
      invariant Tabulates(order, table, Claims(adapters[..n]))
    {
      var adapter := adapters[n];
      ghost var before := Claims(adapters[..n]);
      assert before + [] == before;
      for k := 0 to |adapter.routes|
        invariant Tabulates(order, table, before + ClaimsOf(n, adapter.routes[..k]))
      {
        var decl := adapter.routes[k];
        ghost var claims := before + ClaimsOf(n, adapter.routes[..k]);
        ClaimPosition(adapters, n, k);
        if decl.route in table {
          r := DuplicateRoute(decl.route, adapters[table[decl.route].adapter].id, adapter.id);
          FoundConflict(adapters, r, order, table, claims, Entry(n, decl));
          return;
        }
        TableGrows(order, table, claims, Entry(n, decl));
        assert ClaimsOf(n, adapter.routes[..k + 1]) == ClaimsOf(n, adapter.routes[..k]) + [Entry(n, decl)];
        assert claims + [Entry(n, decl)] == before + ClaimsOf(n, adapter.routes[..k + 1]);
        order, table := order + [decl.route], table[decl.route := Entry(n, decl)];
      }
      assert adapter.routes[..|adapter.routes|] == adapter.routes;
      assert adapters[..n + 1][..n] == adapters[..n];
    }
    assert adapters[..|adapters|] == adapters;
    r := Table(order, table);
  }

  lemma {:induction false} FoundConflict(
    adapters: seq<Adapter>, r: Built, order: seq<string>, table: map<string, Entry>, claims: seq<Entry>, e: Entry)
    requires Tabulates(order, table, claims) && claims + [e] <= Claims(adapters)
    requires e.decl.route in table && (forall c :: c in claims + [e] ==> c.adapter < |adapters|)
    requires table[e.decl.route].adapter < |adapters|
    requires r == DuplicateRoute(e.decl.route, adapters[table[e.decl.route].adapter].id, adapters[e.adapter].id)
    ensures Conflict(adapters, r) && !OneClaimEach(Claims(adapters))
  {
    var i :| 0 <= i < |order| && order[i] == e.decl.route;
    var j := |claims|;
    var all := Claims(adapters);
    assert all[..j] == claims && all[j] == (claims + [e])[j] == e && all[i] == claims[i];
  }

  // ----- Readings and fingerprints ----------------------------------------------------------

  /** One route as read at the seal. */
  datatype Reading = Reading(decl: Decl, models: seq<Model>)

  ghost predicate Enumerates(order: seq<string>, table: map<string, Entry>) {
    && Distinct(order) && (forall route :: route in order <==> route in table)
    && (forall route :: route in table ==> table[route].decl.route == route)
  }

  /** The entries by route name, each with what its adapter offers now. */
  function Readings(order: seq<string>, table: map<string, Entry>, now: Catalogue): (all: seq<Reading>)
    requires Enumerates(order, table)
    ensures |all| == |order|
    ensures forall i :: 0 <= i < |all| ==> Sort(order)[i] in table && all[i] == ReadingOf(table, now, Sort(order)[i])
  {
    assert forall i :: 0 <= i < |order| ==> Sort(order)[i] in Sort(order);
    seq(|order|, i requires 0 <= i < |order| => ReadingOf(table, now, Sort(order)[i]))
  }

  function ReadingOf(table: map<string, Entry>, now: Catalogue, route: string): Reading
    requires route in table
  {
    Reading(table[route].decl, now(table[route].adapter, table[route].decl.route))
  }

  function Ids(models: seq<Model>): seq<string> {
    seq(|models|, i requires 0 <= i < |models| => models[i].id)
  }

  function Texts(strings: seq<string>): seq<Json> {
    seq(|strings|, i requires 0 <= i < |strings| => Text(strings[i]))
  }

  function Described(r: Reading): Json {
    Obj([
      Field("route", Text(r.decl.route)), Field("api", Text(r.decl.api)), Field("baseUrl", Text(r.decl.baseUrl)),
      Field("models", Arr(Texts(Sort(Ids(r.models)))))])
  }

  function DescribedAll(all: seq<Reading>): Json {
    Arr(seq(|all|, i requires 0 <= i < |all| => Described(all[i])))
  }

  function DeclsOf(all: seq<Reading>): seq<Decl> {
    seq(|all|, i requires 0 <= i < |all| => all[i].decl)
  }

  function ModelsOf(all: seq<Reading>): seq<Model> {
    if all == [] then [] else all[0].models + ModelsOf(all[1..])
  }

  /** The models route by route, each route's in its adapter's order. */
  lemma {:induction false} ModelsInOrder(a: seq<Reading>, r: Reading, b: seq<Reading>)
    ensures ModelsOf(a + [r] + b) == ModelsOf(a) + r.models + ModelsOf(b)
    decreases |a|
  {
    var all := a + [r] + b;
    if a == [] {
      assert all[0] == r && all[1..] == b;
    } else {
      assert all[0] == a[0] && all[1..] == a[1..] + [r] + b;
      ModelsInOrder(a[1..], r, b);
    }
  }

  datatype Snapshot = Snapshot(routes: seq<Decl>, models: seq<Model>, fingerprint: string)

  function SnapshotOf(hash: string -> string, all: seq<Reading>): Snapshot {
    Snapshot(DeclsOf(all), ModelsOf(all), hash(Write(DescribedAll(all))))
  }

  class ModelRegistry {
    const hash: string -> string
    const order: seq<string>
    const table: map<string, Entry>
    var snapshot: Option<Snapshot>

    constructor (hash: string -> string, order: seq<string>, table: map<string, Entry>)
      ensures this.hash == hash && this.order == order && this.table == table && snapshot == None
    {
      this.hash, this.order, this.table, snapshot := hash, order, table, None;
    }

    method Lookup(route: string) returns (r: Option<Entry>)
      ensures r == if route in table then Some(table[route]) else None
    {
      if route in table { return Some(table[route]); }
      r := None;
    }

    /** Live before the seal, the snapshot's afterwards. */
    method Routes(now: Catalogue) returns (r: seq<Decl>)
      requires Enumerates(order, table)
      ensures r == match snapshot case Some(s) => s.routes case None => DeclsOf(Readings(order, table, now))
    {
      if snapshot.Some? { return snapshot.value.routes; }
      r := DeclsOf(Readings(order, table, now));
    }

    method Models(now: Catalogue) returns (r: seq<Model>)
      requires Enumerates(order, table)
      ensures r == match snapshot case Some(s) => s.models case None => ModelsOf(Readings(order, table, now))
    {
      if snapshot.Some? { return snapshot.value.models; }
      r := ModelsOf(Readings(order, table, now));
    }

    /** Reads the catalogues once; a later seal keeps the first reading. */
    method Seal(now: Catalogue)
      requires Enumerates(order, table)
      modifies this
      ensures snapshot == Some(old(snapshot).GetOr(SnapshotOf(hash, Readings(order, table, now))))
    {
      if snapshot.Some? { return; }
      var entries := Readings(order, table, now);
      snapshot := Some(Snapshot(DeclsOf(entries), ModelsOf(entries), hash(Write(DescribedAll(entries)))));
    }

    /** Refused before the seal. */
    method Fingerprint() returns (r: Option<string>)
      ensures r == match snapshot case Some(s) => Some(s.fingerprint) case None => None
    {
      if snapshot.None? { return None; }
      r := Some(snapshot.value.fingerprint);
    }

    /** One call on a registry that was sealed on this reading, or not yet. */
    method Perform(call: Call, ghost reading: Option<seq<Reading>>) returns (a: Answer)
      requires Enumerates(order, table) && snapshot == SnapshotIf(hash, reading)
      modifies this
      ensures snapshot == SnapshotIf(hash, ReadingAfter(order, table, call, reading))
      ensures reading.None? ==> AnsweredLive(order, table, call, a)
      ensures reading.Some? ==> AnsweredFrom(hash, table, reading.value, call, a)
    {
      match call {
        case AskLookup(route) =>
          var r := Lookup(route);
          a := IsEntry(r);
        case AskRoutes(now) =>
          var r := Routes(now);
          a := AreRoutes(r);
        case AskModels(now) =>
          var r := Models(now);
          a := AreModels(r);
        case AskFingerprint =>
          var r := Fingerprint();
          a := IsFingerprint(r);
        case DoSeal(now) =>
          Seal(now);
          a := Sealed;
      }
    }

    /**
     * Any calls in any order, whatever the catalogues hold at each of them. Until the first seal the
     * projections show the catalogues of the moment and the fingerprint is refused; from then on all
     * three are those of the one reading the first seal took.
     */
    method PerformAll(calls: seq<Call>) returns (answers: seq<Answer>)
      requires Enumerates(order, table) && snapshot.None?
      modifies this
      ensures |answers| == |calls| && AllAnswered(hash, order, table, calls, answers)
    {
      answers := [];
      ghost var reading: Option<seq<Reading>> := None;
      for n := 0 to |calls|
        invariant |answers| == n
        invariant snapshot == SnapshotIf(hash, reading) && IsFirstReading(order, table, calls, n, reading)
        invariant AllAnswered(hash, order, table, calls, answers)
      {
        var a := Perform(calls[n], reading);
        AnswerHolds(hash, order, table, calls, answers, reading, a);
        reading := ReadingAfter(order, table, calls[n], reading);
        answers := answers + [a];
      }
    }
  }

  // ----- Runs of calls ----------------------------------------------------------------------

  datatype Call =
    | AskLookup(route: string)
    | AskRoutes(now: Catalogue)
    | AskModels(now: Catalogue)
    | AskFingerprint
    | DoSeal(now: Catalogue)

  datatype Answer =
    | IsEntry(entry: Option<Entry>)
    | AreRoutes(routes: seq<Decl>)
    | AreModels(models: seq<Model>)
    | IsFingerprint(fingerprint: Option<string>)
    | Sealed

  ghost predicate Unsealed(calls: seq<Call>, j: nat) {
    forall i | 0 <= i < |calls| && i < j :: !calls[i].DoSeal?
  }

  ghost predicate FirstSeal(calls: seq<Call>, i: nat) {
    i < |calls| && calls[i].DoSeal? && Unsealed(calls, i)
  }

  /** The call at `j` comes after the first seal, the call at `i`. */
  ghost predicate SealedBy(calls: seq<Call>, i: nat, j: nat) {
    i < j < |calls| && FirstSeal(calls, i)
  }

  function SnapshotIf(hash: string -> string, reading: Option<seq<Reading>>): Option<Snapshot> {
    if reading.Some? then Some(SnapshotOf(hash, reading.value)) else None
  }

  function ReadingAfter(order: seq<string>, table: map<string, Entry>, call: Call, reading: Option<seq<Reading>>)
    : Option<seq<Reading>>
    requires Enumerates(order, table)
  {
    if call.DoSeal? && reading.None? then Some(Readings(order, table, call.now)) else reading
  }

  /** The reading of the first seal among the first `n` calls. */
  ghost predicate IsFirstReading(
    order: seq<string>, table: map<string, Entry>, calls: seq<Call>, n: nat, reading: Option<seq<Reading>>)
    requires Enumerates(order, table) && n <= |calls|
  {
    && (reading.None? <==> Unsealed(calls, n))
    && forall i: nat | i < n && FirstSeal(calls, i) :: reading == Some(Readings(order, table, calls[i].now))
  }

  lemma AnswerHolds(
    hash: string -> string, order: seq<string>, table: map<string, Entry>, calls: seq<Call>, answers: seq<Answer>,
    reading: Option<seq<Reading>>, a: Answer)
    requires Enumerates(order, table) && |answers| < |calls|
    requires IsFirstReading(order, table, calls, |answers|, reading)
    requires AllAnswered(hash, order, table, calls, answers)
    requires reading.None? ==> AnsweredLive(order, table, calls[|answers|], a)
    requires reading.Some? ==> AnsweredFrom(hash, table, reading.value, calls[|answers|], a)
    ensures AllAnswered(hash, order, table, calls, answers + [a])
    ensures
      var n := |answers|;
      IsFirstReading(order, table, calls, n + 1, ReadingAfter(order, table, calls[n], reading))
  {
    var n := |answers|;
    if calls[n].DoSeal? && reading.None? { assert FirstSeal(calls, n); }
    assert Answered(hash, order, table, calls, n, a);
  }

  function EntryOf(table: map<string, Entry>, route: string): Option<Entry> {
    if route in table then Some(table[route]) else None
  }

  /** The answer shows these catalogues: the caller's own. */
  ghost predicate AnsweredLive(order: seq<string>, table: map<string, Entry>, call: Call, a: Answer)
    requires Enumerates(order, table)
  {
    match call
    case AskLookup(route) => a == IsEntry(EntryOf(table, route))
    case AskRoutes(now) => a == AreRoutes(DeclsOf(Readings(order, table, now)))
    case AskModels(now) => a == AreModels(ModelsOf(Readings(order, table, now)))
    case AskFingerprint => a == IsFingerprint(None)
    case DoSeal(_) => a == Sealed
  }

  /** The answer shows this reading, whatever the catalogues hold by now. */
  ghost predicate AnsweredFrom(
    hash: string -> string, table: map<string, Entry>, all: seq<Reading>, call: Call, a: Answer)
  {
    match call
    case AskLookup(route) => a == IsEntry(EntryOf(table, route))
    case AskRoutes(_) => a == AreRoutes(DeclsOf(all))
    case AskModels(_) => a == AreModels(ModelsOf(all))
    case AskFingerprint => a == IsFingerprint(Some(hash(Write(DescribedAll(all)))))
    case DoSeal(_) => a == Sealed
  }

  /** What the caller at `j` is told: the live catalogues before the first seal, its reading after it. */
  ghost predicate Answered(
    hash: string -> string, order: seq<string>, table: map<string, Entry>, calls: seq<Call>, j: nat, a: Answer)
    requires Enumerates(order, table) && j < |calls|
  {
    && (Unsealed(calls, j) ==> AnsweredLive(order, table, calls[j], a))
    && forall i: nat | SealedBy(calls, i, j) ::
         AnsweredFrom(hash, table, Readings(order, table, calls[i].now), calls[j], a)
  }

  ghost predicate AllAnswered(
    hash: string -> string, order: seq<string>, table: map<string, Entry>, calls: seq<Call>, answers: seq<Answer>)
    requires Enumerates(order, table)
  {
    && |answers| <= |calls|
    && forall j | 0 <= j < |answers| :: Answered(hash, order, table, calls, j, answers[j])
  }

  /** Before or after: one of the two always applies, and names one reading. */
  lemma {:induction false} SealedOrNot(calls: seq<Call>, j: nat)
    requires j < |calls|
    ensures !Unsealed(calls, j) <==> exists i: nat :: SealedBy(calls, i, j)
    ensures forall i: nat, k: nat | SealedBy(calls, i, j) && SealedBy(calls, k, j) :: i == k
  {
    if j > 0 {
      SealedOrNot(calls, j - 1);
      if Unsealed(calls, j - 1) && !Unsealed(calls, j) {
        assert SealedBy(calls, j - 1, j);
      } else if !Unsealed(calls, j - 1) {
        var i: nat :| i < j - 1 && SealedBy(calls, i, j - 1);
        assert SealedBy(calls, i, j);
      }
    }
  }

  /** A route is served by the one adapter that claims it. */
  lemma LookupFindsTheOneClaim(order: seq<string>, table: map<string, Entry>, claims: seq<Entry>, route: string)
    requires Tabulates(order, table, claims)
    ensures EntryOf(table, route).Some? <==> exists e :: e in claims && e.decl.route == route
    ensures forall e | e in claims && e.decl.route == route :: EntryOf(table, route) == Some(e)
  {
    TablesEnumerate(order, table, claims);
    forall e | e in claims && e.decl.route == route ensures EntryOf(table, route) == Some(e) {
      var i :| 0 <= i < |claims| && claims[i] == e;
      assert order[i] == route;
    }
  }

  // ----- What a fingerprint identifies ------------------------------------------------------

  /** What a route offers: where it points, and how often it lists each model id. */
  datatype Offer = Offer(api: string, baseUrl: string, ids: multiset<string>)

  function OfferOf(r: Reading): Offer {
    Offer(r.decl.api, r.decl.baseUrl, multiset(Ids(r.models)))
  }

  function Offers(table: map<string, Entry>, now: Catalogue): map<string, Offer> {
    map route | route in table :: OfferOf(ReadingOf(table, now, route))
  }

  lemma DescribedIsWellFormed(all: seq<Reading>)
    ensures WellFormed(DescribedAll(all))
  {
    forall i | 0 <= i < |all| ensures WellFormed(Described(all[i])) {
      var fields := Described(all[i]).fields;
      assert Keys(fields) == ["route", "api", "baseUrl", "models"];
      assert "route"[0] != "api"[0] && "baseUrl"[0] != "models"[0];
    }
  }

  lemma FieldsOf(r: Reading)
    ensures
      var fields := Described(r).fields;
      && Get(fields, "route") == Text(r.decl.route) && Get(fields, "api") == Text(r.decl.api)
      && Get(fields, "baseUrl") == Text(r.decl.baseUrl) && Get(fields, "models") == Arr(Texts(Sort(Ids(r.models))))
  {
    var fields := Described(r).fields;
    var keys := Keys(fields);
    assert keys[0] == "route" && keys[1] == "api" && keys[2] == "baseUrl" && keys[3] == "models";
    assert "route"[0] != "api"[0] && "route"[0] != "baseUrl"[0] && "route"[0] != "models"[0];
    assert "api"[0] != "baseUrl"[0] && "api"[0] != "models"[0] && "baseUrl"[0] != "models"[0];
  }

  ghost predicate Alike(a: Reading, b: Reading) {
    && a.decl.route == b.decl.route && a.decl.api == b.decl.api && a.decl.baseUrl == b.decl.baseUrl
    && Sort(Ids(a.models)) == Sort(Ids(b.models))
  }

  ghost predicate AllAlike(a: seq<Reading>, b: seq<Reading>) {
    |a| == |b| && forall i :: 0 <= i < |a| ==> Alike(a[i], b[i])
  }

  lemma AlikeBack(a: seq<Reading>, b: seq<Reading>)
    requires AllAlike(a, b)
    ensures AllAlike(b, a)
  {
    forall i | 0 <= i < |b| ensures Alike(b[i], a[i]) { assert Alike(a[i], b[i]); }
  }

  lemma FullLength(items: seq<Json>)
    requires forall i :: 0 <= i < |items| ==> items[i] != Undefined
    ensures Length(items) == |items|
  {
    assert |items| == 1 ==> items == [items[0]];
  }

  lemma SameTexts(x: seq<string>, y: seq<string>)
    requires Same(Arr(Texts(x)), Arr(Texts(y)))
    ensures x == y
  {
    FullLength(Texts(x));
    FullLength(Texts(y));
    forall i | 0 <= i < |x| ensures x[i] == y[i] {
      assert Same(Texts(x)[i], Texts(y)[i]);
    }
  }

  lemma SameDescribed(a: Reading, b: Reading)
    requires Same(Described(a), Described(b))
    ensures Alike(a, b)
  {
    FieldsOf(a);
    FieldsOf(b);
    var f, g := Described(a).fields, Described(b).fields;
    SameField(f, g, "route");
    SameField(f, g, "api");
    SameField(f, g, "baseUrl");
    SameField(f, g, "models");
    SameTexts(Sort(Ids(a.models)), Sort(Ids(b.models)));
  }

  lemma SameField(f: seq<Field>, g: seq<Field>, key: string)
    requires Same(Obj(f), Obj(g)) && Get(f, key) != Undefined
    ensures Same(Get(f, key), Get(g, key))
  {
    assert key in Shown(f);
  }

  /** Equal texts come from readings that are alike, route by route. */
  lemma EqualTextsAreAlike(a: seq<Reading>, b: seq<Reading>)
    requires Write(DescribedAll(a)) == Write(DescribedAll(b))
    ensures AllAlike(a, b)
  {
    DescribedIsWellFormed(a);
    DescribedIsWellFormed(b);
    TextDeterminesValue(DescribedAll(a), DescribedAll(b));
    var x, y := DescribedAll(a).items, DescribedAll(b).items;
    FullLength(x);
    FullLength(y);
    forall i | 0 <= i < |a| ensures Alike(a[i], b[i]) {
      assert Same(x[i], y[i]);
      SameDescribed(a[i], b[i]);
    }
  }

  ghost predicate Injective(hash: string -> string) {
    forall s, t :: hash(s) == hash(t) ==> s == t
  }

  /**
   * Under an injective hash two sealed registries carry the same fingerprint exactly when they offer
   * the same: the same routes, pointing to the same places, listing the same model ids equally often.
   */
  lemma FingerprintIdentifiesOffers(
    hash: string -> string, order: seq<string>, table: map<string, Entry>, now: Catalogue,
    order': seq<string>, table': map<string, Entry>, now': Catalogue)
    requires Injective(hash) && Enumerates(order, table) && Enumerates(order', table')
    ensures SnapshotOf(hash, Readings(order, table, now)).fingerprint
              == SnapshotOf(hash, Readings(order', table', now')).fingerprint
            <==> Offers(table, now) == Offers(table', now')
  {
    var a, b := DescribedAll(Readings(order, table, now)), DescribedAll(Readings(order', table', now'));
    if hash(Write(a)) == hash(Write(b)) {
      EqualTextsEqualOffers(order, table, now, order', table', now');
    }
    if Offers(table, now) == Offers(table', now') {
      EqualOffersReadAlike(order, table, now, order', table', now');
    }
  }

  lemma EqualTextsEqualOffers(
    order: seq<string>, table: map<string, Entry>, now: Catalogue,
    order': seq<string>, table': map<string, Entry>, now': Catalogue)
    requires Enumerates(order, table) && Enumerates(order', table')
    requires Write(DescribedAll(Readings(order, table, now))) == Write(DescribedAll(Readings(order', table', now')))
    ensures Offers(table, now) == Offers(table', now')
  {
    var a, b := Readings(order, table, now), Readings(order', table', now');
    EqualTextsAreAlike(a, b);
    AlikeBack(a, b);
    AlikeOffers(order, table, now, order', table', now');
    AlikeOffers(order', table', now', order, table, now);
    OffersEqual(table, now, table', now');
  }

  lemma OffersEqual(table: map<string, Entry>, now: Catalogue, table': map<string, Entry>, now': Catalogue)
    requires forall route :: route in table ==>
               route in table' && Offers(table, now)[route] == Offers(table', now')[route]
    requires forall route :: route in table' ==> route in table
    ensures Offers(table, now) == Offers(table', now')
  {
    var m, m' := Offers(table, now), Offers(table', now');
    assert forall route :: route in m <==> route in table;
    assert forall route :: route in m' <==> route in table';
  }

  /** The routes of two tables with the same keys come in the same order. */
  lemma SameRoutesSameOrder(
    order: seq<string>, table: map<string, Entry>, order': seq<string>, table': map<string, Entry>)
    requires Enumerates(order, table) && Enumerates(order', table')
    requires forall route :: route in table <==> route in table'
    ensures Sort(order) == Sort(order')
  {
    SortKeepsDistinct(order);
    SortKeepsDistinct(order');
    DistinctSortedIsUnique(Sort(order), Sort(order'));
  }

  lemma AlikeOffers(
    order: seq<string>, table: map<string, Entry>, now: Catalogue,
    order': seq<string>, table': map<string, Entry>, now': Catalogue)
    requires Enumerates(order, table) && Enumerates(order', table')
    requires AllAlike(Readings(order, table, now), Readings(order', table', now'))
    ensures forall route :: route in table ==>
              route in table' && Offers(table, now)[route] == Offers(table', now')[route]
  {
    var a, b := Readings(order, table, now), Readings(order', table', now');
    forall route | route in table
      ensures route in table' && Offers(table, now)[route] == Offers(table', now')[route]
    {
      assert route in Sort(order);
      var i :| 0 <= i < |order| && Sort(order)[i] == route;
      assert Alike(a[i], b[i]) && Sort(order')[i] in table';
      assert multiset(Ids(a[i].models)) == multiset(Sort(Ids(a[i].models)));
      assert multiset(Ids(b[i].models)) == multiset(Sort(Ids(b[i].models)));
    }
  }

  lemma EqualOffersReadAlike(
    order: seq<string>, table: map<string, Entry>, now: Catalogue,
    order': seq<string>, table': map<string, Entry>, now': Catalogue)
    requires Enumerates(order, table) && Enumerates(order', table')
    requires Offers(table, now) == Offers(table', now')
    ensures DescribedAll(Readings(order, table, now)) == DescribedAll(Readings(order', table', now'))
  {
    assert forall route :: route in table <==> route in Offers(table, now);
    assert forall route :: route in table' <==> route in Offers(table', now');
    SameRoutesSameOrder(order, table, order', table');
    RoutesReadAlike(Sort(order), Readings(order, table, now), table, now, Readings(order', table', now'), table', now');
  }

  lemma RoutesReadAlike(
    routes: seq<string>, a: seq<Reading>, table: map<string, Entry>, now: Catalogue,
    b: seq<Reading>, table': map<string, Entry>, now': Catalogue)
    requires |a| == |routes| == |b|
    requires forall i :: 0 <= i < |routes| ==> routes[i] in table && a[i] == ReadingOf(table, now, routes[i])
    requires forall i :: 0 <= i < |routes| ==> routes[i] in table' && b[i] == ReadingOf(table', now', routes[i])
    requires forall i :: 0 <= i < |routes| ==> table[routes[i]].decl.route == table'[routes[i]].decl.route
    requires Offers(table, now) == Offers(table', now')
    ensures DescribedAll(a) == DescribedAll(b)
  {
    forall i | 0 <= i < |a| ensures Described(a[i]) == Described(b[i]) {
      EqualOfferReadsAlike(table, now, table', now', routes[i]);
    }
    DescribedPointwise(a, b);
  }

  lemma DescribedPointwise(a: seq<Reading>, b: seq<Reading>)
    requires |a| == |b| && forall i :: 0 <= i < |a| ==> Described(a[i]) == Described(b[i])
    ensures DescribedAll(a) == DescribedAll(b)
  {
    assert DescribedAll(a).items == DescribedAll(b).items;
  }

  lemma EqualOfferReadsAlike(
    table: map<string, Entry>, now: Catalogue, table': map<string, Entry>, now': Catalogue, route: string)
    requires route in table && route in table' && table[route].decl.route == table'[route].decl.route
    requires Offers(table, now)[route] == Offers(table', now')[route]
    ensures Described(ReadingOf(table, now, route)) == Described(ReadingOf(table', now', route))
  {
    var a, b := ReadingOf(table, now, route), ReadingOf(table', now', route);
    SortedIsUnique(Sort(Ids(a.models)), Sort(Ids(b.models)));
  }

  // ----- The order of the adapters ----------------------------------------------------------

  lemma TablesEnumerate(order: seq<string>, table: map<string, Entry>, claims: seq<Entry>)
    requires Tabulates(order, table, claims)
    ensures Enumerates(order, table)
    ensures forall route :: route in table ==> table[route] in claims
  {
    forall route | route in order ensures route in table && table[route].decl.route == route && table[route] in claims {
      var i :| 0 <= i < |order| && order[i] == route;
      assert table[order[i]] == claims[i];
    }
  }

  /** What a batch of adapters declares and offers, whoever declares it and in whatever order. */
  ghost function Offered(claims: seq<Entry>, now: Catalogue): set<(Decl, seq<Model>)> {
    set e | e in claims :: (e.decl, now(e.adapter, e.decl.route))
  }

  /** The fingerprint does not depend on the order in which the adapters were supplied. */
  lemma AdapterOrderDoesNotMatter(
    hash: string -> string, adapters: seq<Adapter>, now: Catalogue, adapters': seq<Adapter>, now': Catalogue,
    built: Built, built': Built)
    requires built.Table? && Tabulates(built.order, built.table, Claims(adapters))
    requires built'.Table? && Tabulates(built'.order, built'.table, Claims(adapters'))
    requires Offered(Claims(adapters), now) == Offered(Claims(adapters'), now')
    ensures Enumerates(built.order, built.table) && Enumerates(built'.order, built'.table)
    ensures SnapshotOf(hash, Readings(built.order, built.table, now)).fingerprint
         == SnapshotOf(hash, Readings(built'.order, built'.table, now')).fingerprint
  {
    TablesEnumerate(built.order, built.table, Claims(adapters));
    TablesEnumerate(built'.order, built'.table, Claims(adapters'));
    OfferedWithin(built, now, Claims(adapters), built', now', Claims(adapters'));
    OfferedWithin(built', now', Claims(adapters'), built, now, Claims(adapters));
    OffersEqual(built.table, now, built'.table, now');
    EqualOffersReadAlike(built.order, built.table, now, built'.order, built'.table, now');
  }

  lemma OfferedWithin(
    built: Built, now: Catalogue, claims: seq<Entry>, built': Built, now': Catalogue, claims': seq<Entry>)
    requires built.Table? && Tabulates(built.order, built.table, claims)
    requires built'.Table? && Tabulates(built'.order, built'.table, claims')
    requires Offered(claims, now) <= Offered(claims', now')
    ensures forall route :: route in built.table ==>
              route in built'.table && Offers(built.table, now)[route] == Offers(built'.table, now')[route]
  {
    TablesEnumerate(built.order, built.table, claims);
    forall route | route in built.table
      ensures route in built'.table && Offers(built.table, now)[route] == Offers(built'.table, now')[route]
    {
      var e := built.table[route];
      assert (e.decl, now(e.adapter, e.decl.route)) in Offered(claims', now');
      var e' :| e' in claims' && (e'.decl, now'(e'.adapter, e'.decl.route)) == (e.decl, now(e.adapter, e.decl.route));
      var i :| 0 <= i < |claims'| && claims'[i] == e';
      assert built'.order[i] == route && built'.table[route] == e';
    }
  }
}
