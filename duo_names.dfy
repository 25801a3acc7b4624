/** How the duo pages name a duo (`getDuoName` in pages/DuoEdit.tsx and
    pages/DuoList.tsx, which are the same code): each member is called by the
    first word of their name, and the two are joined with " & ". */
module DuoNames {
  import opened Wrappers
  import opened Text
  import opened Entities

  /** `u?.name?.split(' ')[0] || fallback`: the first word of the name, or
      `fallback` when the name is missing or starts with a space (the first
      word is then empty). */
  function MemberLabel(u: UserRef, fallback: string): (shown: string)
    ensures u.name.None? ==> shown == fallback
    ensures u.name.Some? && u.name.value != [] && u.name.value[0] != ' ' ==>
      shown != [] && shown <= u.name.value && ' ' !in shown
      && (|shown| < |u.name.value| ==> u.name.value[|shown|] == ' ')
    ensures u.name.Some? && (u.name.value == [] || u.name.value[0] == ' ') ==> shown == fallback
  {
    match u.name
    case None => fallback
    case Some(name) =>
      var w := FirstWord(name);
      if w == [] then fallback else w
  }

  /** "<first word of user1's name, or 'User 1'> & <first word of user2's
      name, or 'User 2'>". */
  function DuoName(d: Duo): (r: string)
    ensures r == MemberLabel(d.user1, "User 1") + " & " + MemberLabel(d.user2, "User 2")
  {
    MemberLabel(d.user1, "User 1") + " & " + MemberLabel(d.user2, "User 2")
  }

  /** A member whose name is a single word is called by that whole name. */
  lemma SingleWordNameIsLabel(u: UserRef, fallback: string)
    requires u.name.Some? && u.name.value != [] && ' ' !in u.name.value
    ensures MemberLabel(u, fallback) == u.name.value
  {
  }
}
