/**
 * The data-transfer objects exchanged with the web layer. Every reference-typed field
 * may be null, so it is an `Option`; the id-valued fields hold row ids.
 */
module Dtos {
  import opened Wrappers
  import opened Enums

  /** dto/TicketCreateDto.java: the creation form. It has no status field. */
  datatype TicketCreateDto = TicketCreateDto(
    title: Option<string>,
    description: Option<string>,
    priority: Option<TicketPriority>,
    category: Option<TicketCategory>,
    departmentId: Option<nat>)

  /** dto/TicketUpdateDto.java: the edit form. */
  datatype TicketUpdateDto = TicketUpdateDto(
    title: Option<string>,
    description: Option<string>,
    status: Option<TicketStatus>,
    priority: Option<TicketPriority>,
    category: Option<TicketCategory>,
    assignedToId: Option<nat>,
    departmentId: Option<nat>)

  /**
   * The ticket view produced by TicketMapper.toDto: the fields of dto/TicketDto.java together
   * with the targets the mapper's `@Mapping`s name (the creator and assignee ids, the
   * department id and the comment and attachment counts).
   */
  datatype TicketDto = TicketDto(
    id: nat,
    title: string,
    description: Option<string>,
    status: TicketStatus,
    priority: TicketPriority,
    category: Option<TicketCategory>,
    createdAt: nat,
    updatedAt: nat,
    resolvedAt: Option<nat>,
    createdById: Option<nat>,
    createdByUsername: Option<string>,
    createdByFullName: Option<string>,
    assignedToId: Option<nat>,
    assignedToUsername: Option<string>,
    assignedToFullName: Option<string>,
    departmentId: Option<nat>,
    departmentName: Option<string>,
    commentCount: nat,
    attachmentCount: nat)

  /** dto/UserDto.java, together with the raw `password` that UserService.createUser reads from it. */
  datatype UserDto = UserDto(
    id: Option<nat>,
    username: Option<string>,
    password: Option<string>,
    email: Option<string>,
    firstName: Option<string>,
    lastName: Option<string>,
    phoneNumber: Option<string>,
    status: Option<UserStatus>,
    departmentId: Option<nat>,
    departmentName: Option<string>,
    roles: Option<set<string>>,
    createdAt: Option<nat>,
    lastLogin: Option<nat>,
    openTicketsCount: nat,
    assignedTicketsCount: nat)

  /** dto/TicketCommentDto.java. */
  datatype CommentDto = CommentDto(
    id: nat,
    content: string,
    createdAt: nat,
    ticketId: nat,
    userId: nat,
    username: string,
    userFullName: string)

  /** dto/DashboardStatsDto.java. */
  datatype DashboardStats = DashboardStats(
    totalTickets: nat,
    openTickets: nat,
    inProgressTickets: nat,
    resolvedTickets: nat,
    closedTickets: nat,
    urgentTickets: nat,
    highPriorityTickets: nat,
    myAssignedTickets: nat)
}
