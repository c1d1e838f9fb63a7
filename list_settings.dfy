/** The list settings screen: deleting the list (its `update` callback on
    the cached GET_LISTS result) and adding an invitee (the lookup decision,
    the component state around it and the `update` callback that appends to
    the cached GET_COLLABORATORS result). */
module ListSettings {
  import opened Collections
  import opened QueryCache
  import AvailableLists
  import Invite

  // ---------------------------------------------------------------- delete list

  /** The `update` callback of `deleteList`: an early return when `returning`
      has no length, otherwise the lists whose id was returned are dropped. */
  method DeleteListUpdate(cache: Store<AvailableLists.ListRow>, returning: Returning<Deleted>)
    modifies cache
    ensures cache.rows == AfterGuardedDelete(old(cache.rows), AvailableLists.ListId, returning)
  {
    GuardedDeleteUpdate(cache, AvailableLists.ListId, returning);
  }

  /** The optimistic pass of deleting a list, whose `returning` is the single
      object `{ id: listId }`, changes nothing. */
  lemma OptimisticDeleteListIsNoOp(lists: seq<AvailableLists.ListRow>, listId: int)
    ensures AfterGuardedDelete(lists, AvailableLists.ListId, SingleDeleted(listId)) == lists
  {
  }

  /** With an array response, exactly the lists whose id is not returned
      remain, in order, and no returned id is left. */
  lemma ServerDeleteListKeepsOthers(lists: seq<AvailableLists.ListRow>, deleted: seq<Deleted>)
    requires |deleted| > 0
    ensures var r := AfterGuardedDelete(lists, AvailableLists.ListId, Array(deleted));
      (forall x :: x in r <==> x in lists && x.id !in DeletedIds(deleted)) &&
      IsSubsequence(r, lists) &&
      (forall i, j :: 0 <= i < |r| && 0 <= j < |deleted| ==> r[i].id != deleted[j].id)
  {
    var r := AfterGuardedDelete(lists, AvailableLists.ListId, Array(deleted));
    forall i, j | 0 <= i < |r| && 0 <= j < |deleted|
      ensures r[i].id != deleted[j].id
    {
      assert r[i] in r;
      assert DeletedIds(deleted)[j] == deleted[j].id;
    }
  }

  // ---------------------------------------------------------------- add invitee

  /** ASCII lower-casing of one character. */
  function LowerChar(c: char): char
  {
    if 'A' <= c <= 'Z' then (c as int + 32) as char else c
  }

  /** `toLowerCase`, restricted to ASCII letters. */
  function Lower(s: string): (r: string)
    ensures |r| == |s|
    ensures forall i :: 0 <= i < |s| ==> r[i] == LowerChar(s[i])
  {
    seq(|s|, i requires 0 <= i < |s| => LowerChar(s[i]))
  }

  /** `a.toLowerCase() === b.toLowerCase()`. */
  predicate SameIgnoringCase(a: string, b: string)
  {
    Lower(a) == Lower(b)
  }

  /** Lower-casing twice is lower-casing once. */
  lemma LowerIdempotent(s: string)
    ensures Lower(Lower(s)) == Lower(s)
  {
    forall i | 0 <= i < |s|
      ensures Lower(Lower(s))[i] == Lower(s)[i]
    {
      var c := s[i];
      if 'A' <= c <= 'Z' {
        assert 'a' <= LowerChar(c) <= 'z';
      }
    }
  }

  /** A user returned by FIND_INVITEE: `id email Invites { id }`. */
  datatype User = User(id: string, email: string, inviteIds: seq<int>)

  /** The outcome of the lookup in `onAddInvitee`. */
  datatype Decision = AlreadyInvited | NotFound | SendInvite(inviteeId: string)

  /** The branch `onAddInvitee` takes on the lookup result: only the first
      user is considered, and only when its email equals the input up to
      case; a user who has any invite is not invited again. */
  function DecideInvitee(users: seq<User>, input: string): (d: Decision)
    ensures d.SendInvite? <==>
      |users| > 0 && SameIgnoringCase(users[0].email, input) && |users[0].inviteIds| == 0
    ensures d.SendInvite? ==> d.inviteeId == users[0].id
    ensures d == AlreadyInvited <==>
      |users| > 0 && SameIgnoringCase(users[0].email, input) && |users[0].inviteIds| > 0
    ensures d == NotFound <==> !(|users| > 0 && SameIgnoringCase(users[0].email, input))
  {
    if |users| > 0 && Lower(users[0].email) == Lower(input) then
      if |users[0].inviteIds| > 0 then AlreadyInvited else SendInvite(users[0].id)
    else
      NotFound
  }

  /** The decision does not depend on the case of the typed email. */
  lemma DecideInviteeIgnoresInputCase(users: seq<User>, input: string)
    ensures DecideInvitee(users, input) == DecideInvitee(users, Lower(input))
  {
    LowerIdempotent(input);
  }

  /** The alert `onAddInvitee` shows for each outcome (none when inviting). */
  function AlertFor(d: Decision): (alerts: seq<string>)
    ensures d.SendInvite? <==> alerts == []
    ensures d == AlreadyInvited <==> alerts == ["Already invited that user"]
    ensures d == NotFound <==> alerts == ["Could not find invitee"]
  {
    match d
    case AlreadyInvited => ["Already invited that user"]
    case NotFound => ["Could not find invitee"]
    case SendInvite(_) => []
  }

  /** The optimistic invite of `addInvitee`: still open (`accepted` null),
      so it is shown as pending. */
  function OptimisticInvite(tempId: int, listId: int, inviterId: string, inviteeId: string, email: string): (invite: Invite.InviteRow)
    requires tempId <= 0
    ensures invite.id <= 0 && invite.listId == listId
    ensures invite.inviter == inviterId && invite.invitee == inviteeId
    ensures invite.invitedEmail == email
    ensures Invite.InviteStatus(invite.accepted) == "Pending"
  {
    Invite.InviteRow(tempId, listId, inviterId, inviteeId, None, email)
  }

  /** The `update` callback of `addInvitee`: the returned invites are
      appended after the cached ones. */
  method AddInviteeUpdate(cache: Store<Invite.InviteRow>, returning: seq<Invite.InviteRow>)
    modifies cache
    ensures cache.rows == old(cache.rows) + returning
  {
    AppendReturned(cache, returning);
  }

  /** The component state `onAddInvitee` works on. */
  class Screen {
    const listId: int
    const userId: string
    const collaborators: Store<Invite.InviteRow>
    var inviteeInput: string
    var findInviteeLoading: bool
    var alerts: seq<string>

    constructor (listId: int, userId: string, collaborators: Store<Invite.InviteRow>)
      ensures this.listId == listId && this.userId == userId
      ensures this.collaborators == collaborators
      ensures inviteeInput == "" && !findInviteeLoading && alerts == []
    {
      this.listId := listId;
      this.userId := userId;
      this.collaborators := collaborators;
      inviteeInput := "";
      findInviteeLoading := false;
      alerts := [];
    }

    /** `onAddInvitee`, with the outcome of the FIND_INVITEE lookup given as
        `lookup`: `Some(users)` when the query resolves, `None` when it
        rejects. The loading flag is raised before the lookup and lowered
        only after it resolves; a rejected lookup ends the handler there,
        leaving the flag raised and showing no alert. The optimistic
        response of `addInvitee` is applied to the collaborators cache, and
        the input is cleared only when an invite is sent. */
    method AddInvitee(lookup: Option<seq<User>>, tempId: int) returns (d: Option<Decision>)
      requires tempId <= 0
      modifies this, collaborators
      ensures lookup.None? ==>
        d.None? && findInviteeLoading && alerts == old(alerts) &&
        inviteeInput == old(inviteeInput) && collaborators.rows == old(collaborators.rows)
      ensures lookup.Some? ==>
        d == Some(DecideInvitee(lookup.value, old(inviteeInput))) &&
        !findInviteeLoading &&
        alerts == old(alerts) + AlertFor(d.value)
      ensures d.Some? && d.value.SendInvite? ==>
        inviteeInput == "" &&
        collaborators.rows == old(collaborators.rows) +
          [OptimisticInvite(tempId, listId, userId, d.value.inviteeId, old(inviteeInput))]
      ensures d.Some? && !d.value.SendInvite? ==>
        inviteeInput == old(inviteeInput) && collaborators.rows == old(collaborators.rows)
    {
      findInviteeLoading := true;
      if lookup.None? {
        d := None;
        return;
      }
      var users := lookup.value;
      findInviteeLoading := false;
      if |users| > 0 && Lower(users[0].email) == Lower(inviteeInput) {
        if |users[0].inviteIds| > 0 {
          alerts := alerts + ["Already invited that user"];
          d := Some(AlreadyInvited);
        } else {
          var optimistic := OptimisticInvite(tempId, listId, userId, users[0].id, inviteeInput);
          AddInviteeUpdate(collaborators, [optimistic]);
          inviteeInput := "";
          d := Some(SendInvite(users[0].id));
        }
      } else {
        alerts := alerts + ["Could not find invitee"];
        d := Some(NotFound);
      }
    }
  }
}
