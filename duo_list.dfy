/** The duo list page (pages/DuoList.tsx): whether the user has any friend
    yet, the partner shown on each duo card, and the list after a delete.
    Duo names come from `DuoNames.DuoName`. */
module DuoList {
  import opened Wrappers
  import opened Seqs
  import opened Text
  import opened Entities
  import opened FriendshipController

  /** The friend check: both accepted-friendship queries must succeed (a
      failed one leaves the answer unknown), and the user has friends when
      together they return anything. */
  function FriendCheck(sent: Result<seq<Friendship>, string>, received: Result<seq<Friendship>, string>): (r: Option<bool>)
    ensures r.None? <==> sent.Err? || received.Err?
    ensures r.Some? ==> (r.value <==> sent.value != [] || received.value != [])
  {
    if sent.Err? || received.Err? then None
    else Some(|sent.value + received.value| > 0)
  }

  /** Run against the friendship table, the check says yes exactly when some
      accepted friendship involves the user. */
  lemma FriendCheckOnTable(rows: seq<Friendship>, u: UserId)
    ensures FriendCheck(Ok(SentAccepted(rows, u)), Ok(ReceivedAccepted(rows, u))) ==
      Some(exists i :: 0 <= i < |rows| && rows[i].status == Accepted && (rows[i].sender == u || rows[i].receiver == u))
  {
    var sent := SentAccepted(rows, u);
    var received := ReceivedAccepted(rows, u);
    if exists i :: 0 <= i < |rows| && rows[i].status == Accepted && (rows[i].sender == u || rows[i].receiver == u) {
      var i :| 0 <= i < |rows| && rows[i].status == Accepted && (rows[i].sender == u || rows[i].receiver == u);
      if rows[i].sender == u {
        assert rows[i] in sent;
      } else {
        assert rows[i] in received;
      }
    } else {
      FilterNone(rows, (f: Friendship) => f.sender == u && f.status == Accepted);
      FilterNone(rows, (f: Friendship) => f.receiver == u && f.status == Accepted);
    }
  }

  /** `duo.user1_id === user?.id ? duo.user2 : duo.user1`. */
  function Partner(d: Duo, me: Option<UserId>): (p: UserRef)
    ensures p == d.user1 || p == d.user2
  {
    if me == Some(d.user1.id) then d.user2 else d.user1
  }

  /** For a member of a duo with two different members, the partner is the
      other member. */
  lemma PartnerIsOtherMember(d: Duo, me: UserId)
    requires d.HasMember(me) && d.user1.id != d.user2.id
    ensures Partner(d, Some(me)).id != me && d.HasMember(Partner(d, Some(me)).id)
  {
  }

  /** The partner as the card shows it. */
  datatype PartnerCard = PartnerCard(name: string, email: Option<string>, initial: string)

  /** `name.charAt(0).toUpperCase()`. */
  function Initial(name: string): (r: string)
    ensures name == [] <==> r == []
    ensures name != [] ==> r == [ToUpperChar(name[0])]
  {
    if name == [] then [] else [ToUpperChar(name[0])]
  }

  /** `getPartnerInfo`; `None` where the source would fail on a partner
      without a name. */
  function PartnerInfo(d: Duo, me: Option<UserId>): (r: Option<PartnerCard>)
    ensures r.None? <==> Partner(d, me).name.None?
    ensures r.Some? ==> (r.value.name == Partner(d, me).name.value && r.value.email == Partner(d, me).email
      && r.value.initial == Initial(r.value.name))
  {
    var p := Partner(d, me);
    if p.name.None? then None else Some(PartnerCard(p.name.value, p.email, Initial(p.name.value)))
  }

  /** The list after `handleDelete`: on success every duo with that id goes
      and the rest stay; on failure nothing changes. */
  function AfterDelete(duos: seq<Duo>, id: DuoId, succeeded: bool): (r: seq<Duo>)
    ensures !succeeded ==> r == duos
    ensures succeeded ==> forall i :: 0 <= i < |r| ==> r[i].id != id && r[i] in duos
    ensures succeeded ==> forall i :: 0 <= i < |duos| && duos[i].id != id ==> duos[i] in r
    ensures succeeded ==> var ix := FilterIndices(duos, (d: Duo) => d.id != id);
      |r| == |ix| && forall k :: 0 <= k < |r| ==> r[k] == duos[ix[k]]
  {
    if succeeded then
      FilterInOrder(duos, (d: Duo) => d.id != id);
      Filter(duos, (d: Duo) => d.id != id)
    else duos
  }

  /** A successful delete keeps every other duo exactly as often as before. */
  lemma AfterDeleteCounts(duos: seq<Duo>, id: DuoId, d: Duo)
    ensures multiset(AfterDelete(duos, id, true))[d] == if d.id != id then multiset(duos)[d] else 0
  {
    FilterMultiset(duos, (e: Duo) => e.id != id, d);
  }
}
