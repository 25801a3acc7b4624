/** The nearby-duo search of the client (services/duoService.ts,
    `findNearbyDuos`): fetch the duos that have a location, drop the caller's
    own, annotate each with its distance from the caller, keep those within
    the radius, and order them nearest first. The great-circle distance
    itself is a parameter. */
module DuoService {
  import opened Wrappers
  import opened Seqs
  import opened Entities

  /** The radius used when the caller gives none. */
  const DefaultRadiusKm: real := 10.0

  /** The distance from the first coordinate pair to the second. */
  type DistanceFn = (real, real, real, real) -> real

  /** A duo with its distance from the caller (`{ ...duo, distance }`). */
  datatype NearbyDuo = NearbyDuo(duo: Duo, distance: real)

  datatype NearbyError =
    | NotAuthenticated         // 'User not authenticated'
    | QueryFailed(message: string)

  /** The query filter `.not('latitude', 'is', null).not('longitude', 'is', null)`. */
  predicate HasLocation(d: Duo) {
    d.latitude.Some? && d.longitude.Some?
  }

  /** The caller is neither member (the first client-side filter). */
  predicate NotOwnedBy(d: Duo, me: UserId) {
    d.user1.id != me && d.user2.id != me
  }

  function DistanceTo(d: Duo, latitude: real, longitude: real, distance: DistanceFn): real
    requires HasLocation(d)
  {
    distance(latitude, longitude, d.latitude.value, d.longitude.value)
  }

  /** A fetched duo the search should return. */
  predicate Eligible(d: Duo, me: UserId, latitude: real, longitude: real, radius: real, distance: DistanceFn) {
    HasLocation(d) && NotOwnedBy(d, me) && DistanceTo(d, latitude, longitude, distance) <= radius
  }

  /** The `map` step: each duo with its distance. */
  function Annotate(duos: seq<Duo>, latitude: real, longitude: real, distance: DistanceFn): (r: seq<NearbyDuo>)
    requires forall i :: 0 <= i < |duos| ==> HasLocation(duos[i])
    ensures |r| == |duos|
    ensures forall i :: 0 <= i < |duos| ==>
      r[i] == NearbyDuo(duos[i], DistanceTo(duos[i], latitude, longitude, distance))
  {
    if duos == [] then []
    else
      var first := NearbyDuo(duos[0], DistanceTo(duos[0], latitude, longitude, distance));
      [first] + Annotate(duos[1..], latitude, longitude, distance)
  }

  function DuosOf(ns: seq<NearbyDuo>): (r: seq<Duo>)
    ensures |r| == |ns| && forall i :: 0 <= i < |ns| ==> r[i] == ns[i].duo
  {
    seq(|ns|, i requires 0 <= i < |ns| => ns[i].duo)
  }

  predicate SortedByDistance(s: seq<NearbyDuo>) {
    forall i, j :: 0 <= i < j < |s| ==> s[i].distance <= s[j].distance
  }

  /** Putting an entry no farther than any of a sorted list in front keeps it sorted. */
  lemma ConsSorted(h: NearbyDuo, s: seq<NearbyDuo>)
    requires SortedByDistance(s)
    requires forall k :: 0 <= k < |s| ==> h.distance <= s[k].distance
    ensures SortedByDistance([h] + s)
  {
    var r := [h] + s;
    forall i, j | 0 <= i < j < |r|
      ensures r[i].distance <= r[j].distance
    {
      if i > 0 {
        assert r[i] == s[i - 1] && r[j] == s[j - 1];
      }
    }
  }

  /** Inserting `x`, farther than the head of a sorted list, into the list's
      tail gives entries that are all at least as far as that head. */
  lemma HeadBound(x: NearbyDuo, s: seq<NearbyDuo>, rest: seq<NearbyDuo>)
    requires SortedByDistance(s) && s != [] && s[0].distance < x.distance
    requires multiset(rest) == multiset(s[1..]) + multiset{x}
    ensures forall k :: 0 <= k < |rest| ==> s[0].distance <= rest[k].distance
  {
    forall k | 0 <= k < |rest|
      ensures s[0].distance <= rest[k].distance
    {
      assert rest[k] in multiset(rest);
      if rest[k] != x {
        assert rest[k] in multiset(s[1..]);
        var m :| 0 <= m < |s[1..]| && s[1..][m] == rest[k];
        assert s[m + 1] == rest[k];
      }
    }
  }

  /** Inserts `x` before the first entry that is farther away. */
  function InsertByDistance(x: NearbyDuo, s: seq<NearbyDuo>): (r: seq<NearbyDuo>)
    requires SortedByDistance(s)
    ensures SortedByDistance(r)
    ensures multiset(r) == multiset(s) + multiset{x}
    ensures r[0] == x || (s != [] && r[0] == s[0])
  {
    if s == [] then [x]
    else if x.distance <= s[0].distance then
      ConsSorted(x, s);
      [x] + s
    else
      var rest := InsertByDistance(x, s[1..]);
      assert s == [s[0]] + s[1..];
      HeadBound(x, s, rest);
      ConsSorted(s[0], rest);
      [s[0]] + rest
  }

  /** `.sort((a, b) => a.distance - b.distance)`: a stable sort by ascending
      distance. */
  function SortByDistance(s: seq<NearbyDuo>): (r: seq<NearbyDuo>)
    ensures SortedByDistance(r)
    ensures multiset(r) == multiset(s)
  {
    if s == [] then []
    else
      assert s == [s[0]] + s[1..];
      InsertByDistance(s[0], SortByDistance(s[1..]))
  }

  /** The entries at distance `d`, in the order of `s`. */
  function EntriesAt(s: seq<NearbyDuo>, d: real): seq<NearbyDuo> {
    if s == [] then []
    else (if s[0].distance == d then [s[0]] else []) + EntriesAt(s[1..], d)
  }

  lemma EntriesAtCons(h: NearbyDuo, t: seq<NearbyDuo>, d: real)
    ensures EntriesAt([h] + t, d) == (if h.distance == d then [h] else []) + EntriesAt(t, d)
  {
    assert ([h] + t)[1..] == t;
  }

  /** Inserting `x` puts it in front of every entry at its own distance, so
      among the entries at any one distance the order is kept. */
  lemma {:induction false} InsertStable(x: NearbyDuo, s: seq<NearbyDuo>, d: real)
    requires SortedByDistance(s)
    ensures EntriesAt(InsertByDistance(x, s), d) == (if x.distance == d then [x] else []) + EntriesAt(s, d)
  {
    if s == [] {
      EntriesAtCons(x, [], d);
    } else if x.distance <= s[0].distance {
      InsertFront(x, s, d);
    } else {
      InsertStable(x, s[1..], d);
      InsertPastStable(x, s, d);
    }
  }

  /** An entry no farther than the head of a sorted list goes in front. */
  lemma InsertFront(x: NearbyDuo, s: seq<NearbyDuo>, d: real)
    requires SortedByDistance(s) && s != [] && x.distance <= s[0].distance
    ensures InsertByDistance(x, s) == [x] + s
    ensures EntriesAt(InsertByDistance(x, s), d) == (if x.distance == d then [x] else []) + EntriesAt(s, d)
  {
    EntriesAtCons(x, s, d);
  }

  /** The inductive step of `InsertStable` when `x` goes past the head. */
  lemma InsertPastStable(x: NearbyDuo, s: seq<NearbyDuo>, d: real)
    requires SortedByDistance(s) && s != [] && x.distance > s[0].distance
    requires EntriesAt(InsertByDistance(x, s[1..]), d) == (if x.distance == d then [x] else []) + EntriesAt(s[1..], d)
    ensures EntriesAt(InsertByDistance(x, s), d) == (if x.distance == d then [x] else []) + EntriesAt(s, d)
  {
    InsertPast(x, s);
    KeepPast(x, s, InsertByDistance(x, s[1..]), d);
  }

  /** Entries at distance `d` in front of an entry closer than `x` are kept. */
  lemma KeepPast(x: NearbyDuo, s: seq<NearbyDuo>, grown: seq<NearbyDuo>, d: real)
    requires s != [] && x.distance > s[0].distance
    requires EntriesAt(grown, d) == (if x.distance == d then [x] else []) + EntriesAt(s[1..], d)
    ensures EntriesAt([s[0]] + grown, d) == (if x.distance == d then [x] else []) + EntriesAt(s, d)
  {
    var h, t := s[0], s[1..];
    assert s == [h] + t;
    EntriesAtCons(h, grown, d);
    EntriesAtCons(h, t, d);
    SwapDisjoint(if h.distance == d then [h] else [], if x.distance == d then [x] else [], EntriesAt(t, d));
  }

  /** Two pieces of which at least one is empty commute. */
  lemma SwapDisjoint(a: seq<NearbyDuo>, xs: seq<NearbyDuo>, b: seq<NearbyDuo>)
    requires a == [] || xs == []
    ensures a + (xs + b) == xs + (a + b)
  {
    if a == [] {
      assert a + (xs + b) == xs + b == xs + (a + b);
    } else {
      assert a + (xs + b) == a + b == xs + (a + b);
    }
  }

  /** An entry farther than the head of a sorted list is inserted into its
      tail. */
  lemma InsertPast(x: NearbyDuo, s: seq<NearbyDuo>)
    requires SortedByDistance(s) && s != [] && x.distance > s[0].distance
    ensures SortedByDistance(s[1..])
    ensures InsertByDistance(x, s) == [s[0]] + InsertByDistance(x, s[1..])
  {
  }

  /** The sort is stable: the entries at any one distance come out in the
      order they went in. */
  lemma {:induction false} SortStable(s: seq<NearbyDuo>, d: real)
    ensures EntriesAt(SortByDistance(s), d) == EntriesAt(s, d)
  {
    if s != [] {
      SortStable(s[1..], d);
      InsertStable(s[0], SortByDistance(s[1..]), d);
    }
  }

  /** The client-side steps once some located duos were fetched: drop the
      caller's own, annotate, keep those within the radius, sort. */
  function Pipeline(data: seq<Duo>, me: UserId, latitude: real, longitude: real, radius: real,
                    distance: DistanceFn): (r: seq<NearbyDuo>)
    requires forall i :: 0 <= i < |data| ==> HasLocation(data[i])
    ensures SortedByDistance(r)
  {
    var others := Filter(data, (d: Duo) => NotOwnedBy(d, me));
    var annotated := Annotate(others, latitude, longitude, distance);
    var near := Filter(annotated, (n: NearbyDuo) => n.distance <= radius);
    SortByDistance(near)
  }

  /** `findNearbyDuos(latitude, longitude, radiusKm = 10)`. `session` is the
      signed-in user, if any; `table` is the result of reading the duos table
      (or the query error). */
  function FindNearbyDuos(session: Option<UserId>, latitude: real, longitude: real, radiusKm: Option<real>,
                          table: Result<seq<Duo>, string>, distance: DistanceFn): (r: Result<seq<NearbyDuo>, NearbyError>)
    ensures session.None? ==> r == Err(NotAuthenticated)
    ensures session.Some? && table.Err? ==> r == Err(QueryFailed(table.error))
    ensures session.Some? && table.Ok? ==> r.Ok? && SortedByDistance(r.value)
    ensures session.Some? && table.Ok? && (forall i :: 0 <= i < |table.value| ==> !HasLocation(table.value[i])) ==>
      r == Ok([])
  {
    if session.None? then Err(NotAuthenticated)
    else if table.Err? then Err(QueryFailed(table.error))
    else
      var data := Filter(table.value, HasLocation);
      if |data| == 0 then Ok([])
      else Ok(Pipeline(data, session.value, latitude, longitude, radiusKm.GetOr(DefaultRadiusKm), distance))
  }

  /** Every duo returned is one of the fetched duos, has a location, is not
      the caller's, lies within the radius (10 km unless given), and carries
      its distance from the caller. */
  lemma NearbyOnlyEligible(session: Option<UserId>, latitude: real, longitude: real, radiusKm: Option<real>,
                           table: Result<seq<Duo>, string>, distance: DistanceFn)
    requires session.Some? && table.Ok?
    ensures var r := FindNearbyDuos(session, latitude, longitude, radiusKm, table, distance).value;
      forall i :: 0 <= i < |r| ==>
        && r[i].duo in table.value
        && Eligible(r[i].duo, session.value, latitude, longitude, radiusKm.GetOr(DefaultRadiusKm), distance)
        && r[i].distance == DistanceTo(r[i].duo, latitude, longitude, distance)
  {
    var me := session.value;
    var radius := radiusKm.GetOr(DefaultRadiusKm);
    var data := Filter(table.value, HasLocation);
    if |data| > 0 {
      var others := Filter(data, (d: Duo) => NotOwnedBy(d, me));
      var annotated := Annotate(others, latitude, longitude, distance);
      var near := Filter(annotated, (n: NearbyDuo) => n.distance <= radius);
      var r := SortByDistance(near);
      forall i | 0 <= i < |r|
        ensures r[i].duo in table.value
        ensures Eligible(r[i].duo, me, latitude, longitude, radius, distance)
        ensures r[i].distance == DistanceTo(r[i].duo, latitude, longitude, distance)
      {
        assert r[i] in multiset(near);
        FilterMember(annotated, (n: NearbyDuo) => n.distance <= radius, r[i]);
        AnnotatedFrom(others, latitude, longitude, distance, r[i]);
        FilterMember(data, (d: Duo) => NotOwnedBy(d, me), r[i].duo);
        FilterMember(table.value, HasLocation, r[i].duo);
      }
    }
  }

  /** Each annotated entry is one of the duos with its own distance. */
  lemma {:induction false} AnnotatedFrom(duos: seq<Duo>, latitude: real, longitude: real, distance: DistanceFn, n: NearbyDuo)
    requires forall i :: 0 <= i < |duos| ==> HasLocation(duos[i])
    requires n in Annotate(duos, latitude, longitude, distance)
    ensures n.duo in duos && HasLocation(n.duo)
    ensures n.distance == DistanceTo(n.duo, latitude, longitude, distance)
  {
    if n != Annotate(duos, latitude, longitude, distance)[0] {
      AnnotatedFrom(duos[1..], latitude, longitude, distance, n);
    }
  }

  /** Annotating is one-to-one: a duo's annotated form occurs as often as the
      duo itself. */
  lemma {:induction false} AnnotateCount(duos: seq<Duo>, d: Duo, latitude: real, longitude: real, distance: DistanceFn)
    requires forall i :: 0 <= i < |duos| ==> HasLocation(duos[i])
    requires HasLocation(d)
    ensures multiset(Annotate(duos, latitude, longitude, distance))[NearbyDuo(d, DistanceTo(d, latitude, longitude, distance))]
      == multiset(duos)[d]
  {
    if duos != [] {
      assert duos == [duos[0]] + duos[1..];
      AnnotateCount(duos[1..], d, latitude, longitude, distance);
    }
  }

  /** The search only filters, annotates and reorders: each located duo that
      is eligible appears exactly as often as it was fetched, and any other
      duo not at all. */
  lemma NearbyEachEligibleOnce(session: Option<UserId>, latitude: real, longitude: real, radiusKm: Option<real>,
                               table: Result<seq<Duo>, string>, distance: DistanceFn, d: Duo)
    requires session.Some? && table.Ok?
    requires HasLocation(d)
    ensures var r := FindNearbyDuos(session, latitude, longitude, radiusKm, table, distance).value;
      multiset(r)[NearbyDuo(d, DistanceTo(d, latitude, longitude, distance))] ==
        if Eligible(d, session.value, latitude, longitude, radiusKm.GetOr(DefaultRadiusKm), distance)
        then multiset(table.value)[d] else 0
  {
    var me := session.value;
    var radius := radiusKm.GetOr(DefaultRadiusKm);
    var data := Filter(table.value, HasLocation);
    var ad := NearbyDuo(d, DistanceTo(d, latitude, longitude, distance));
    FilterMultiset(table.value, HasLocation, d);
    if |data| > 0 {
      var notOwned := (x: Duo) => NotOwnedBy(x, me);
      var within := (n: NearbyDuo) => n.distance <= radius;
      var others := Filter(data, notOwned);
      var annotated := Annotate(others, latitude, longitude, distance);
      var near := Filter(annotated, within);
      FilterMultiset(data, notOwned, d);
      AnnotateCount(others, d, latitude, longitude, distance);
      FilterMultiset(annotated, within, ad);
      assert FindNearbyDuos(session, latitude, longitude, radiusKm, table, distance).value == SortByDistance(near);
    }
  }
}
