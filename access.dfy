/**
 * The role and ownership rules the controllers repeat: who is an admin, an agent or a
 * plain user, who owns a ticket, and who may edit, delete or view it.
 */
module Access {
  import opened Wrappers
  import opened TicketEntity
  import opened Dtos
  import opened Store

  /** The authenticated caller: its username and the authorities it was granted. */
  datatype Caller = Caller(username: string, authorities: set<string>)

  predicate IsAdmin(c: Caller) {
    "ROLE_ADMIN" in c.authorities
  }

  predicate IsAgent(c: Caller) {
    "ROLE_AGENT" in c.authorities
  }

  /** `isUser = !isAdmin && !isAgent`: the plain-user scope of the ticket lists and the API. */
  predicate IsPlainUser(c: Caller) {
    !IsAdmin(c) && !IsAgent(c)
  }

  /** A caller holding either staff authority, or both, is not a plain user; anyone else is. */
  lemma PlainUserIffNoStaffRole(c: Caller)
    ensures IsPlainUser(c) <==> "ROLE_ADMIN" !in c.authorities && "ROLE_AGENT" !in c.authorities
    ensures "ROLE_ADMIN" in c.authorities && "ROLE_AGENT" in c.authorities ==> !IsPlainUser(c)
    ensures c.authorities == {"ROLE_USER"} ==> IsPlainUser(c)
  {
  }

  /** `isOwner`: the ticket's creator username is set and is the caller's. */
  predicate IsOwner(t: TicketDto, c: Caller) {
    t.createdByUsername.Some? && t.createdByUsername.value == c.username
  }

  /** `canEdit = isAdmin || isOwner`. */
  predicate CanEdit(t: TicketDto, c: Caller) {
    IsAdmin(c) || IsOwner(t, c)
  }

  /** `canDelete = isAdmin || isOwner`. */
  predicate CanDelete(t: TicketDto, c: Caller) {
    IsAdmin(c) || IsOwner(t, c)
  }

  /** Editing and deleting are allowed to the same callers. */
  lemma EditAndDeleteAgree(t: TicketDto, c: Caller)
    ensures CanEdit(t, c) <==> CanDelete(t, c)
  {
  }

  /** An agent who is neither admin nor creator may not edit or delete. */
  lemma AgentAloneMayNotEdit(t: TicketDto, c: Caller)
    requires IsAgent(c) && !IsAdmin(c) && !IsOwner(t, c)
    ensures !CanEdit(t, c) && !CanDelete(t, c)
  {
  }

  /** On a stored ticket, ownership is exactly being the user the ticket was created by. */
  lemma OwnerIsCreator(s: State, t: Ticket, c: Caller)
    requires ValidState(s) && t.id in s.tickets && s.tickets[t.id] == t
    ensures IsOwner(TicketDtoOf(s, t), c) <==> s.users[t.createdBy].username == c.username
  {
  }
}
