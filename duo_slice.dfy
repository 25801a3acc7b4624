/** The client's duo state (store/slices/duoSlice.ts): the user's duos, the
    duo being viewed, and the loading and error flags, updated by the
    reducers of four asynchronous requests and two plain actions. */
module DuoSlice {
  import opened Wrappers
  import opened Entities

  /** `duos.findIndex(duo => duo.id === id)`: the first position holding
      that id, or -1. */
  method FindIndex(duos: seq<Duo>, id: DuoId) returns (index: int)
    ensures -1 <= index < |duos|
    ensures index >= 0 ==> duos[index].id == id && forall k :: 0 <= k < index ==> duos[k].id != id
    ensures index == -1 ==> forall k :: 0 <= k < |duos| ==> duos[k].id != id
  {
    var i := 0;
    while i < |duos|
      invariant 0 <= i <= |duos|
      invariant forall k :: 0 <= k < i ==> duos[k].id != id
    {
      if duos[i].id == id {
        return i;
      }
      i := i + 1;
    }
    return -1;
  }

  /** The list after `updateDuo.fulfilled`: the first entry with the payload's
      id is replaced by the payload; everything else stays where it was. */
  function ReplaceFirstById(s: seq<Duo>, d: Duo): (r: seq<Duo>)
    ensures |r| == |s|
    ensures (forall k :: 0 <= k < |s| ==> s[k].id != d.id) ==> r == s
    ensures forall i :: 0 <= i < |s| && s[i].id == d.id && (forall k :: 0 <= k < i ==> s[k].id != d.id) ==>
      r == s[i := d]
  {
    if s == [] then []
    else if s[0].id == d.id then [d] + s[1..]
    else [s[0]] + ReplaceFirstById(s[1..], d)
  }

  /** Delivering the same update twice leaves the list as delivering it once. */
  lemma {:induction false} ReplaceFirstByIdIdempotent(s: seq<Duo>, d: Duo)
    ensures ReplaceFirstById(ReplaceFirstById(s, d), d) == ReplaceFirstById(s, d)
  {
    if s != [] && s[0].id != d.id {
      ReplaceFirstByIdIdempotent(s[1..], d);
    }
  }

  class DuoStore {
    var duos: seq<Duo>
    var activeDuo: Option<Duo>
    var loading: bool
    var error: Option<string>

    /** `initialState`. */
    constructor ()
      ensures duos == [] && activeDuo == None && !loading && error == None
    {
      duos := [];
      activeDuo := None;
      loading := false;
      error := None;
    }

    /** `setActiveDuo`. */
    method SetActiveDuo(d: Duo)
      modifies this
      ensures activeDuo == Some(d)
      ensures duos == old(duos) && loading == old(loading) && error == old(error)
    {
      activeDuo := Some(d);
    }

    /** `clearActiveDuo`. */
    method ClearActiveDuo()
      modifies this
      ensures activeDuo == None
      ensures duos == old(duos) && loading == old(loading) && error == old(error)
    {
      activeDuo := None;
    }

    /** The `pending` case of each of the four requests (getUserDuos,
        createDuo, getDuo, updateDuo); all four are the same. */
    method RequestPending()
      modifies this
      ensures loading && error == None
      ensures duos == old(duos) && activeDuo == old(activeDuo)
    {
      loading := true;
      error := None;
    }

    /** The `rejected` case of each of the four requests; all four are the
        same. `message` is the payload given to `rejectWithValue`. */
    method RequestRejected(message: string)
      modifies this
      ensures !loading && error == Some(message)
      ensures duos == old(duos) && activeDuo == old(activeDuo)
    {
      loading := false;
      error := Some(message);
    }

    /** `getUserDuos.fulfilled`: the fetched list replaces the stored one. */
    method GetUserDuosFulfilled(payload: seq<Duo>)
      modifies this
      ensures duos == payload && !loading
      ensures activeDuo == old(activeDuo) && error == old(error)
    {
      duos := payload;
      loading := false;
    }

    /** `createDuo.fulfilled`: the new duo is appended. */
    method CreateDuoFulfilled(payload: Duo)
      modifies this
      ensures duos == old(duos) + [payload] && !loading
      ensures activeDuo == old(activeDuo) && error == old(error)
    {
      loading := false;
      duos := duos + [payload];
    }

    /** `getDuo.fulfilled`: the fetched duo becomes the active one. */
    method GetDuoFulfilled(payload: Duo)
      modifies this
      ensures activeDuo == Some(payload) && !loading
      ensures duos == old(duos) && error == old(error)
    {
      loading := false;
      activeDuo := Some(payload);
    }

    /** `updateDuo.fulfilled`: the stored copy is replaced in place, and the
        active duo too when it is the same duo. */
    method UpdateDuoFulfilled(payload: Duo)
      modifies this
      ensures duos == ReplaceFirstById(old(duos), payload) && !loading
      ensures activeDuo ==
        if old(activeDuo).Some? && old(activeDuo).value.id == payload.id then Some(payload) else old(activeDuo)
      ensures error == old(error)
    {
      loading := false;
      var index := FindIndex(duos, payload.id);
      if index != -1 {
        duos := duos[index := payload];
      }
      if activeDuo.Some? && activeDuo.value.id == payload.id {
        activeDuo := Some(payload);
      }
    }
  }
}
