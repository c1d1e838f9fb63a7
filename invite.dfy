/** One collaborator row of the list settings screen: the tri-state status
    label and the `update` callback of removing the collaborator, which
    rewrites the cached GET_COLLABORATORS result. */
module Invite {
  import opened Collections
  import opened QueryCache

  /** One entry of GET_COLLABORATORS: `id list_id inviter invitee accepted
      Invited.email`; `accepted` is null (None) while the invite is open. */
  datatype InviteRow = InviteRow(
    id: int, listId: int, inviter: string, invitee: string,
    accepted: Option<bool>, invitedEmail: string)

  function InviteId(invite: InviteRow): int { invite.id }

  /** `getInviteStatus`: each of the three values of `accepted` has its own
      label, and each label names exactly one of them. */
  function InviteStatus(accepted: Option<bool>): (status: string)
    ensures status == "Pending" <==> accepted.None?
    ensures status == "Accepted" <==> accepted == Some(true)
    ensures status == "Declined" <==> accepted == Some(false)
  {
    if accepted.None? then "Pending"
    else if accepted.value then "Accepted"
    else "Declined"
  }

  /** The `update` callback of `removeCollaborator`: it returns early when
      `returning` has no length, otherwise it drops every invite whose id was
      returned and keeps the others in order. */
  method DeleteInviteUpdate(cache: Store<InviteRow>, returning: Returning<Deleted>)
    modifies cache
    ensures cache.rows == AfterGuardedDelete(old(cache.rows), InviteId, returning)
  {
    GuardedDeleteUpdate(cache, InviteId, returning);
  }

  /** The optimistic pass of removing a collaborator, whose `returning` is
      the single object `{ id: inviteId }`, changes nothing: the invite stays
      cached until the server's array response arrives. */
  lemma OptimisticDeleteInviteIsNoOp(invites: seq<InviteRow>, inviteId: int)
    ensures AfterGuardedDelete(invites, InviteId, SingleDeleted(inviteId)) == invites
  {
  }

  /** The server's response for the invite removes it and nothing else. */
  lemma ServerDeleteInviteRemovesIt(invites: seq<InviteRow>, inviteId: int)
    ensures var r := AfterGuardedDelete(invites, InviteId, Array([Deleted(inviteId)]));
      (forall x :: x in r <==> x in invites && x.id != inviteId) &&
      IsSubsequence(r, invites)
  {
    assert DeletedIds([Deleted(inviteId)]) == [inviteId];
  }
}
