# Helpdesk ticketing core, modelled in Dafny

This project models the core of a Spring Boot IT helpdesk. Users raise tickets. Agents claim them and move them through the statuses OPEN, IN_PROGRESS, RESOLVED, CLOSED and REOPENED. Administrators manage accounts and roles. The model covers:

- **The ticket store.** `Store.Database` is a class that holds every table as a map from id to record, the id counters and the clock; `Store.ValidState` is its invariant. The ticket, user, comment, attachment, role and department tables are included. The invariant covers the foreign keys declared by the `@ManyToOne` join columns, the NOT NULL and UNIQUE columns, the timestamp discipline of tickets and the id counters. Every state-changing method states the whole new state as `db.Snapshot() == old(db.Snapshot()).(...)` and preserves the invariant.
- **The entity lifecycle hooks** (`TicketEntity`, `UserEntity`). `@PrePersist` and `@PreUpdate` are pure functions on records, and so are the builder defaults. `Flush` models the write at commit, which runs `@PreUpdate` only for a changed entity. Lemmas prove that `resolvedAt` is stamped once, on the first RESOLVED or CLOSED status, and then never changes.
- **The services.** `TicketService`, `CommentService`, `UserService` and `DashboardService` hold the operations that change the store as methods and the read-only queries as functions over a `State`. A failing `@Transactional` operation is modelled by restoring the state it started from. `save()` of a loaded ticket does not flush, so the DTO an update returns is built from the modified entity, while the stored row is the one `@PreUpdate` has stamped at commit.
- **The repository queries** (`TicketRepository`). These are the find, count and search queries as functions over the list of rows: the filter, `ORDER BY createdAt DESC` as an insertion sort, and the case-insensitive keyword match. Lemmas relate the counts to one another and to the lists.
- **The controllers.** These are the role classification (`Access`): a caller is a plain user unless it holds ROLE_ADMIN or ROLE_AGENT. They also give each page and API action its guard order: the ownership checks for edit and delete, the plain-user scoping of lists and searches, 403 on the API, refusal of self-deletion, the unassign loop of account deletion, the e-mail check of the profile and the order of the password checks.
- **The mappers, validation and enums.** These are the MapStruct mappings and their null-safe helpers, the Bean Validation constraints of the two ticket forms as a set of violations, and the three enums with their display and badge tables.

Calls to `LocalDateTime.now()` become a `now` parameter. The services first advance the store's clock to it (`Database.Advance`) and use that reading for every timestamp in the call. The password encoder and matcher are function parameters (`encode`, `matches`). The signed-in user is a `Caller`: a username and a set of authorities. A failure that a controller catches and turns into a flash message or a redirect is an `Err` of `Wrappers.Error` or an `Outcome`.

The source comment in account deletion says the user's created tickets and comments are deleted by cascade. No such cascade is declared: `createdTickets` on the user and the comment's `user` column carry none. The model therefore follows the mapping, so deleting a user who still created a ticket, wrote a comment or uploaded a file is refused by the foreign key. The whole transaction then rolls back, including the unassignments. The model does not state which deletion the comment meant.

## Model

| member | source | states |
|---|---|---|
| Access.PlainUserIffNoStaffRole | helpdesk/src/main/java/com/example/helpdesk/controller/api/TicketRestController.java:29-33 | A caller is a plain user exactly when it holds neither ROLE_ADMIN nor ROLE_AGENT; holding both counts as staff, holding only ROLE_USER as a plain user. |
| Access.EditAndDeleteAgree | helpdesk/src/main/java/com/example/helpdesk/controller/TicketController.java:122-123 | Editing and deleting are allowed to exactly the same callers. |
| Access.AgentAloneMayNotEdit | helpdesk/src/main/java/com/example/helpdesk/controller/TicketController.java:112-123 | An agent who is neither admin nor the creator may neither edit nor delete. |
| Access.OwnerIsCreator | helpdesk/src/main/java/com/example/helpdesk/controller/TicketController.java:112-113 | On a stored ticket, `isOwner` holds exactly when the caller's username is the creator's. |
| TicketEntity.BuildDraft | helpdesk/src/main/java/com/example/helpdesk/entity/Ticket.java:33-38 | A ticket built without status or priority gets the builder defaults OPEN and MEDIUM; no assignee and no department. |
| TicketEntity.OnCreate | helpdesk/src/main/java/com/example/helpdesk/entity/Ticket.java:67-77 | `createdAt` and `updatedAt` both read the clock; a null status becomes OPEN and a null priority MEDIUM; `resolvedAt` is left unset whatever the status. |
| TicketEntity.OnUpdate | helpdesk/src/main/java/com/example/helpdesk/entity/Ticket.java:79-87 | `updatedAt` reads the clock; `resolvedAt` is stamped only when the status is RESOLVED or CLOSED and it is unset, and otherwise kept; nothing else changes. |
| TicketEntity.OnCreateConsistent | helpdesk/src/main/java/com/example/helpdesk/entity/Ticket.java:67-77 | A newly persisted ticket keeps the timestamp discipline (created no later than updated, resolved between them). |
| TicketEntity.ConsistentLater | helpdesk/src/main/java/com/example/helpdesk/entity/Ticket.java:43-45 | The timestamp discipline survives the clock moving forward. |
| TicketEntity.FlushToResolutionStamps | helpdesk/src/main/java/com/example/helpdesk/entity/Ticket.java:82-86 | Any change that leaves the ticket RESOLVED or CLOSED leaves `resolvedAt` set. |
| TicketEntity.FlushKeepsHistory | helpdesk/src/main/java/com/example/helpdesk/entity/Ticket.java:79-87 | Saving an edit keeps id, creator and `createdAt`, never clears or overwrites `resolvedAt`, never moves `updatedAt` back, and keeps the timestamp discipline. |
| TicketEntity.FlushUnchanged | helpdesk/src/main/java/com/example/helpdesk/entity/Ticket.java:79-81 | Saving an unchanged ticket (not dirty, so no `@PreUpdate`) leaves it and its `updatedAt` as they were. |
| TicketEntity.FirstResolution | helpdesk/src/main/java/com/example/helpdesk/entity/Ticket.java:82-86 | The index of the first RESOLVED or CLOSED status of a run, with nothing earlier resolving, or none at all. |
| TicketEntity.ResolvedAtPermanent | helpdesk/src/main/java/com/example/helpdesk/entity/Ticket.java:82-86 | Once set, `resolvedAt` survives any run of status updates, including moves back to OPEN or REOPENED. |
| TicketEntity.ResolvedAtStampedOnFirstResolution | helpdesk/src/main/java/com/example/helpdesk/entity/Ticket.java:82-86 | From a never-resolved ticket, a run of status updates stamps `resolvedAt` with the time of the first RESOLVED or CLOSED step, or leaves it unset. |
| UserEntity.BuildDraft | helpdesk/src/main/java/com/example/helpdesk/entity/User.java:39-57 | A user built from the NOT NULL columns gets the builder defaults: status ACTIVE and an empty role set. |
| UserEntity.OnCreate | helpdesk/src/main/java/com/example/helpdesk/entity/User.java:67-73 | `createdAt` reads the clock; status becomes ACTIVE only when it is null, and a set status is kept. |
| UserEntity.FullName | helpdesk/src/main/java/com/example/helpdesk/entity/User.java:75-80 | First and last name joined by a space when both are set; otherwise the username. |
| Enums.ParseStatus | helpdesk/src/main/java/com/example/helpdesk/enums/TicketStatus.java:3-8 | Binding a status name gives the constant of that name, and fails exactly when no constant has it. |
| Enums.ParsePriority | helpdesk/src/main/java/com/example/helpdesk/enums/TicketPriority.java:3-7 | Binding a priority name gives the constant of that name, and fails exactly when no constant has it. |
| Enums.StatusesEnumerated | helpdesk/src/main/java/com/example/helpdesk/enums/TicketStatus.java:4-8 | There are exactly five statuses, each listed once. |
| Enums.PrioritiesEnumerated | helpdesk/src/main/java/com/example/helpdesk/enums/TicketPriority.java:4-7 | There are exactly four priorities, each listed once. |
| Enums.CategoriesEnumerated | helpdesk/src/main/java/com/example/helpdesk/enums/TicketCategory.java:4-11 | There are exactly eight categories, HARDWARE first and OTHER last, each listed once. |
| Enums.ParseStatusRoundTrip | helpdesk/src/main/java/com/example/helpdesk/enums/TicketStatus.java:3-8 | Parsing a status's own name gives that status back. |
| Enums.ParsePriorityRoundTrip | helpdesk/src/main/java/com/example/helpdesk/enums/TicketPriority.java:3-7 | Parsing a priority's own name gives that priority back. |
| Enums.StatusDisplayFollowsName | helpdesk/src/main/java/com/example/helpdesk/enums/TicketStatus.java:4-8 | Every status displays as its humanised constant name ("In Progress" for IN_PROGRESS). |
| Enums.PriorityDisplayFollowsName | helpdesk/src/main/java/com/example/helpdesk/enums/TicketPriority.java:4-7 | Every priority displays as its humanised constant name. |
| Enums.CategoryDisplayFollowsName | helpdesk/src/main/java/com/example/helpdesk/enums/TicketCategory.java:4-11 | Every category except ACCESS displays as its humanised name; ACCESS displays as "Access & Permissions". |
| Enums.StatusTablesInjective | helpdesk/src/main/java/com/example/helpdesk/enums/TicketStatus.java:4-8 | Distinct statuses have distinct display names and distinct badge classes. |
| Enums.PriorityDisplayInjective | helpdesk/src/main/java/com/example/helpdesk/enums/TicketPriority.java:4-7 | Distinct priorities have distinct display names. |
| Enums.PriorityBadges | helpdesk/src/main/java/com/example/helpdesk/enums/TicketPriority.java:4-7 | LOW is "success", MEDIUM "warning", HIGH and URGENT both "danger", so the badge does not determine the priority. |
| Enums.CategoryDisplayInjective | helpdesk/src/main/java/com/example/helpdesk/enums/TicketCategory.java:4-11 | Distinct categories have distinct display names. |
| Text.Lower | helpdesk/src/main/java/com/example/helpdesk/repository/TicketRepository.java:32-33 | SQL `LOWER` keeps the length and lower-cases each letter. |
| Text.ContainsIff | helpdesk/src/main/java/com/example/helpdesk/repository/TicketRepository.java:32-33 | The `LIKE '%k%'` scan succeeds exactly when the keyword occurs at some position. |
| Text.EmptyKeywordMatches | helpdesk/src/main/java/com/example/helpdesk/repository/TicketRepository.java:32-33 | The empty keyword occurs in every string. |
| Text.Humanize | helpdesk/src/main/java/com/example/helpdesk/enums/TicketStatus.java:4-8 | The display-name convention keeps the constant name's length. |
| Text.Utf16Length | helpdesk/src/main/java/com/example/helpdesk/dto/TicketCreateDto.java:18-24 | `length()` counts UTF-16 code units: between one and two per character, exactly one each when no character lies outside the Basic Multilingual Plane. |
| Validation.IsValidStatus | helpdesk/src/main/java/com/example/helpdesk/validation/ValidTicketStatusValidator.java:11-18 | A status is valid exactly when it is not null, REOPENED included; the context is never consulted. |
| Validation.CreateViolations | helpdesk/src/main/java/com/example/helpdesk/dto/TicketCreateDto.java:16-33 | The creation form's violations concern only title, description, priority and category; there is no status field. |
| Validation.UpdateViolations | helpdesk/src/main/java/com/example/helpdesk/dto/TicketUpdateDto.java:17-39 | The edit form's violations concern only title, description, status, priority and category; the two ids are unconstrained. |
| Validation.Message | helpdesk/src/main/java/com/example/helpdesk/dto/TicketUpdateDto.java:19-34 | Every declared constraint has its declared message; the `@ValidTicketStatus` one does not. |
| Validation.CreateAcceptedIff | helpdesk/src/main/java/com/example/helpdesk/dto/TicketCreateDto.java:18-30 | The creation form is accepted exactly when the title is non-blank with 5 to 200 UTF-16 units, the description non-blank with at least 10, and priority and category are given. |
| Validation.UpdateAcceptedIff | helpdesk/src/main/java/com/example/helpdesk/dto/TicketUpdateDto.java:19-35 | The edit form is accepted exactly when title and description pass as on creation and status, priority and category are given; any status passes. |
| Validation.MissingStatusReportedTwice | helpdesk/src/main/java/com/example/helpdesk/dto/TicketUpdateDto.java:27-29 | A missing status is reported by both `@NotNull` and `@ValidTicketStatus`. |
| Validation.BlankTitleOfFiveSpaces | helpdesk/src/main/java/com/example/helpdesk/dto/TicketCreateDto.java:18-20 | Five spaces pass the length check but fail the blank check. |
| Validation.NullTitleViolatesNotBlankOnly | helpdesk/src/main/java/com/example/helpdesk/dto/TicketCreateDto.java:18-20 | A null title violates `@NotBlank` only; `@Size` accepts null. |
| TicketMapper.ToEntity | helpdesk/src/main/java/com/example/helpdesk/mapper/TicketMapper.java:33-43 | The new ticket is OPEN, has no creator, assignee or department, and carries the form's title, description, priority and category. |
| TicketMapper.UpdateEntity | helpdesk/src/main/java/com/example/helpdesk/service/TicketService.java:78 | The edit form's non-null title, description, status, priority and category replace the ticket's; nothing else changes. |
| TicketMapper.UpdateEntityIdempotent | helpdesk/src/main/java/com/example/helpdesk/service/TicketService.java:78 | Applying the same edit form twice is the same as applying it once. |
| TicketMapper.UpdateEntityWithNullsIsIdentity | helpdesk/src/main/java/com/example/helpdesk/service/TicketService.java:78 | An edit form whose copied fields are all null changes nothing. |
| TicketMapper.DepartmentToId | helpdesk/src/main/java/com/example/helpdesk/mapper/TicketMapper.java:45-48 | Null for no department, else the department's id. |
| TicketMapper.DepartmentToName | helpdesk/src/main/java/com/example/helpdesk/mapper/TicketMapper.java:50-53 | Null for no department, else the department's name. |
| TicketMapper.CountComments | helpdesk/src/main/java/com/example/helpdesk/mapper/TicketMapper.java:55-58 | 0 for a null list, else its size. |
| TicketMapper.CountAttachments | helpdesk/src/main/java/com/example/helpdesk/mapper/TicketMapper.java:60-63 | 0 for a null list, else its size. |
| TicketMapper.ToDto | helpdesk/src/main/java/com/example/helpdesk/mapper/TicketMapper.java:23-31 | Every ticket field is copied; creator and assignee give their ids and usernames, or nulls; department and counts go through the named helpers; the two full names, which no mapping fills, are null. |
| TicketMapper.ToDtoList | helpdesk/src/main/java/com/example/helpdesk/mapper/TicketMapper.java:19-31 | One DTO per ticket, same length and order. |
| UserMapper.MapRoles | helpdesk/src/main/java/com/example/helpdesk/mapper/UserMapper.java:51-55 | Exactly the names of the user's roles. |
| UserMapper.MapSingleRole | helpdesk/src/main/java/com/example/helpdesk/mapper/UserMapper.java:51-55 | A user with one role maps to exactly that role's name. |
| UserMapper.CountOpenTickets | helpdesk/src/main/java/com/example/helpdesk/mapper/UserMapper.java:57-62 | 0 for a null list, else the number of OPEN tickets in it, which never exceeds its size. |
| UserMapper.CountAssignedTickets | helpdesk/src/main/java/com/example/helpdesk/mapper/UserMapper.java:64-67 | 0 for a null list, else its size whatever the statuses. |
| UserMapper.ToDto | helpdesk/src/main/java/com/example/helpdesk/mapper/UserMapper.java:23-28 | The user's fields, department id and name, role names and the two counts; no password. |
| UserMapper.ToDtoList | helpdesk/src/main/java/com/example/helpdesk/mapper/UserMapper.java:69-76 | Empty for a null list, else one DTO per user in the same order. |
| UserMapper.ToEntity | helpdesk/src/main/java/com/example/helpdesk/mapper/UserMapper.java:30-38 | Username, email, names, phone and status are copied; password, department and roles are left empty. |
| UserMapper.UpdateFromDto | helpdesk/src/main/java/com/example/helpdesk/mapper/UserMapper.java:40-49 | Non-null DTO values replace the user's; null ones are ignored; id, password, department, roles and timestamps are kept. |
| UserMapper.UpdateFromDtoIdempotent | helpdesk/src/main/java/com/example/helpdesk/mapper/UserMapper.java:40-49 | Applying the same DTO twice is applying it once. |
| UserMapper.UpdateFromOwnDtoIsIdentity | helpdesk/src/main/java/com/example/helpdesk/mapper/UserMapper.java:23-49 | Mapping a user to its DTO and applying that DTO back changes nothing. |
| TicketRepository.OrderByCreatedAtDesc | helpdesk/src/main/java/com/example/helpdesk/repository/TicketRepository.java:34 | The same rows, as a multiset, with the newest first. |
| TicketRepository.FindAllByOrderByCreatedAtDesc | helpdesk/src/main/java/com/example/helpdesk/repository/TicketRepository.java:26-27 | Every ticket, newest first. |
| TicketRepository.FindByStatusOrderByCreatedAtDesc | helpdesk/src/main/java/com/example/helpdesk/repository/TicketRepository.java:17 | Exactly the tickets with that status, newest first. |
| TicketRepository.FindByPriorityOrderByCreatedAtDesc | helpdesk/src/main/java/com/example/helpdesk/repository/TicketRepository.java:18 | Exactly the tickets with that priority, newest first. |
| TicketRepository.FindByCreatedByIdOrderByCreatedAtDesc | helpdesk/src/main/java/com/example/helpdesk/repository/TicketRepository.java:19 | Exactly the tickets the user created, newest first. |
| TicketRepository.FindByAssignedToIdOrderByCreatedAtDesc | helpdesk/src/main/java/com/example/helpdesk/repository/TicketRepository.java:20 | Exactly the tickets assigned to the user, newest first; unassigned tickets never match. |
| TicketRepository.FindByDepartmentId | helpdesk/src/main/java/com/example/helpdesk/repository/TicketRepository.java:21 | Exactly the tickets of that department, in no stated order. |
| TicketRepository.SearchTickets | helpdesk/src/main/java/com/example/helpdesk/repository/TicketRepository.java:29-37 | Every ticket matching all given filters and nothing else, newest first: a null filter imposes nothing, status and priority are exact, the keyword matches title or description case-insensitively. |
| TicketRepository.SearchWithoutCriteria | helpdesk/src/main/java/com/example/helpdesk/repository/TicketRepository.java:29-37 | With every parameter null the search returns every ticket. |
| TicketRepository.FilterAll | helpdesk/src/main/java/com/example/helpdesk/repository/TicketRepository.java:30-33 | A condition every ticket satisfies filters nothing out. |
| TicketRepository.EmptyKeywordNarrowsNothing | helpdesk/src/main/java/com/example/helpdesk/repository/TicketRepository.java:32-33 | An empty keyword gives the same match as no keyword. |
| TicketRepository.KeywordCaseInsensitive | helpdesk/src/main/java/com/example/helpdesk/repository/TicketRepository.java:32-33 | Keywords that differ only in letter case match the same tickets. |
| TicketRepository.Count | helpdesk/src/main/java/com/example/helpdesk/repository/TicketRepository.java:26-27 | `count()` is the size of the full listing. |
| TicketRepository.CountByStatus | helpdesk/src/main/java/com/example/helpdesk/repository/TicketRepository.java:39 | The size of the matching find query. |
| TicketRepository.CountByPriority | helpdesk/src/main/java/com/example/helpdesk/repository/TicketRepository.java:40 | The size of the matching find query. |
| TicketRepository.CountByCreatedById | helpdesk/src/main/java/com/example/helpdesk/repository/TicketRepository.java:43 | The size of the matching find query. |
| TicketRepository.CountByCreatedByIdAndStatus | helpdesk/src/main/java/com/example/helpdesk/repository/TicketRepository.java:44 | The status count over the user's own tickets, never above the global status count. |
| TicketRepository.CountByCreatedByIdAndPriority | helpdesk/src/main/java/com/example/helpdesk/repository/TicketRepository.java:45 | The priority count over the user's own tickets, never above the global priority count. |
| TicketRepository.CountActiveTicketsByAssignedTo | helpdesk/src/main/java/com/example/helpdesk/repository/TicketRepository.java:47-48 | The user's assigned tickets less the CLOSED ones. |
| TicketRepository.StatusCountsPartition | helpdesk/src/main/java/com/example/helpdesk/repository/TicketRepository.java:39 | The five status counts sum to `count()`. |
| TicketRepository.StatusCountsSum | helpdesk/src/main/java/com/example/helpdesk/repository/TicketRepository.java:39 | Over any list, the five status counts sum to its length. |
| TicketRepository.PriorityCountsPartition | helpdesk/src/main/java/com/example/helpdesk/repository/TicketRepository.java:40 | The four priority counts sum to `count()`. |
| TicketRepository.PriorityCountsSum | helpdesk/src/main/java/com/example/helpdesk/repository/TicketRepository.java:40 | Over any list, the four priority counts sum to its length. |
| Store.SameKeysNoCollision | helpdesk/src/main/java/com/example/helpdesk/entity/User.java:26-33 | A stored user saved back with its own username and email collides with no one under the UNIQUE constraints. |
| Store.RowsNotOf | helpdesk/src/main/java/com/example/helpdesk/entity/Ticket.java:59-65 | What deleting a ticket leaves of a child table (comments, attachments): exactly the rows of other tickets, unchanged. |
| Store.FindUserByUsername | helpdesk/src/main/java/com/example/helpdesk/service/UserService.java:50-54 | The stored user with that username, or none exactly when no user has it. |
| Store.FindUserByEmail | helpdesk/src/main/java/com/example/helpdesk/controller/ProfileController.java:49 | The stored user with that email, or none exactly when no user has it. |
| Store.FindRoleByName | helpdesk/src/main/java/com/example/helpdesk/service/UserService.java:64 | A stored role with that name, or none exactly when no role has it. |
| Store.UsernameIdentifiesUser | helpdesk/src/main/java/com/example/helpdesk/entity/User.java:26-27 | By the UNIQUE constraint, looking up a stored user's username finds that user. |
| Store.CommentsOf | helpdesk/src/main/java/com/example/helpdesk/entity/Ticket.java:59-61 | The ticket's `comments` collection is exactly the stored comments of that ticket. |
| Store.AttachmentsOf | helpdesk/src/main/java/com/example/helpdesk/entity/Ticket.java:63-65 | The ticket's `attachments` collection is exactly the stored attachments of that ticket. |
| Store.TicketDtoOf | helpdesk/src/main/java/com/example/helpdesk/mapper/TicketMapper.java:23-31 | The DTO carries the ticket's id, status and priority and the usernames of its stored creator and assignee. |
| Store.TicketDtos | helpdesk/src/main/java/com/example/helpdesk/service/TicketService.java:35 | One DTO per row, same length and order. |
| Store.UserDtoOf | helpdesk/src/main/java/com/example/helpdesk/mapper/UserMapper.java:23-28 | The DTO carries the user's id, username, status and role names and no password. |
| Store.UserDtoCountsAgree | helpdesk/src/main/java/com/example/helpdesk/mapper/UserMapper.java:23-28 | A user DTO's open count equals the repository count of the user's own OPEN tickets; its assigned count is the size of the assignee query and bounds the dashboard's active-assigned count. |
| Store.Database.PersistTicket | helpdesk/src/main/java/com/example/helpdesk/entity/Ticket.java:67-77 | A new ticket is stored under the next id with `onCreate` applied; a null title or creator is refused by its NOT NULL column and nothing changes. |
| Store.Database.MergeTicket | helpdesk/src/main/java/com/example/helpdesk/entity/Ticket.java:79-87 | The loaded ticket is written back, with `onUpdate` applied only if it changed; no other row changes. |
| Store.Database.RemoveTicket | helpdesk/src/main/java/com/example/helpdesk/entity/Ticket.java:59-65 | The ticket goes, and with it its comments and attachments; a missing id deletes nothing. |
| Store.Database.PersistComment | helpdesk/src/main/java/com/example/helpdesk/entity/TicketComment.java:34-37 | A new comment is stored under the next id with `createdAt` read from the clock. |
| Store.Database.RemoveComment | helpdesk/src/main/java/com/example/helpdesk/service/TicketCommentService.java:60 | Exactly that comment goes. |
| Store.Database.PersistRole | helpdesk/src/main/java/com/example/helpdesk/service/UserService.java:66-70 | A new role is stored under the next id. |
| Store.Database.PersistUser | helpdesk/src/main/java/com/example/helpdesk/entity/User.java:67-73 | A new user is stored under the next id with `onCreate` applied; a null NOT NULL column or a taken username or email is refused and nothing changes. |
| Store.Database.MergeUser | helpdesk/src/main/java/com/example/helpdesk/entity/User.java:26-33 | The user is written back unless its username or email belongs to another user, in which case nothing changes. |
| Store.Database.RemoveUser | helpdesk/src/main/java/com/example/helpdesk/entity/Ticket.java:47-53 | A missing id deletes nothing; a user still referenced by a ticket, comment or attachment is refused by the foreign keys; otherwise exactly that row goes. |
| TicketService.AssignedTo | helpdesk/src/main/java/com/example/helpdesk/service/TicketService.java:135-138 | The assignee becomes the user; OPEN becomes IN_PROGRESS and every other status is kept. |
| TicketService.AssignedToIdempotent | helpdesk/src/main/java/com/example/helpdesk/service/TicketService.java:135-138 | Assigning the same user again changes nothing more. |
| TicketService.AssignedToKeepsTheRest | helpdesk/src/main/java/com/example/helpdesk/service/TicketService.java:135-138 | On a ticket that is not OPEN, assignment changes only the assignee. |
| TicketService.AssigneeWhileOpenPossible | helpdesk/src/main/java/com/example/helpdesk/service/TicketService.java:78-83 | An edit can leave a ticket OPEN with an assignee: nothing ties the two together. |
| TicketService.Updated | helpdesk/src/main/java/com/example/helpdesk/service/TicketService.java:74-89 | The form's non-null fields are copied; the assignee is replaced only when an id is given, and the department only when an id is given (an unknown one gives none). |
| TicketService.EmptyUpdateChangesNothing | helpdesk/src/main/java/com/example/helpdesk/service/TicketService.java:74-89 | An all-null update form leaves the ticket as it was. |
| TicketService.SavedAssignmentLeavesOpen | helpdesk/src/main/java/com/example/helpdesk/service/TicketService.java:163-170 | A saved claim or assignment leaves the ticket assigned, out of OPEN, and with any `resolvedAt` kept. |
| TicketService.DtosOfFound | helpdesk/src/main/java/com/example/helpdesk/service/TicketService.java:35 | Mapping a found list of rows drawn from the table scan gives exactly those rows' DTOs, each ticket once (distinct ids), newest first. |
| TicketService.GetAllTickets | helpdesk/src/main/java/com/example/helpdesk/service/TicketService.java:32-40 | Every stored ticket as a DTO, each once, newest first. |
| TicketService.GetTicketEntityById | helpdesk/src/main/java/com/example/helpdesk/service/TicketService.java:49-53 | The stored ticket, or "Ticket not found" exactly when the id is missing. |
| TicketService.GetTicketById | helpdesk/src/main/java/com/example/helpdesk/service/TicketService.java:42-47 | The stored ticket's DTO, or "Ticket not found" exactly when the id is missing. |
| TicketService.GetTicketsByStatus | helpdesk/src/main/java/com/example/helpdesk/service/TicketService.java:100-103 | Exactly the tickets with that status, each once, newest first. |
| TicketService.GetTicketsByPriority | helpdesk/src/main/java/com/example/helpdesk/service/TicketService.java:105-108 | Exactly the tickets with that priority, each once, newest first. |
| TicketService.GetTicketsByUser | helpdesk/src/main/java/com/example/helpdesk/service/TicketService.java:110-113 | Exactly the tickets the user created, each once, newest first. |
| TicketService.GetAssignedTickets | helpdesk/src/main/java/com/example/helpdesk/service/TicketService.java:115-118 | Exactly the tickets assigned to the user, each once, newest first. |
| TicketService.SearchTickets | helpdesk/src/main/java/com/example/helpdesk/service/TicketService.java:120-128 | Exactly the tickets the search query matches, each once, newest first. |
| TicketService.SearchTicketsByUser | helpdesk/src/main/java/com/example/helpdesk/controller/TicketController.java:259-260 | Exactly the matching tickets the user created, each once, newest first. |
| TicketService.CreateTicket | helpdesk/src/main/java/com/example/helpdesk/service/TicketService.java:55-71 | Succeeds exactly when the user exists (and the title is set); the new ticket is OPEN, created by that user, unassigned, stamped with the clock, with the form's fields, the default priority MEDIUM, and the department only if it exists; no other row changes. |
| TicketService.UpdateTicket | helpdesk/src/main/java/com/example/helpdesk/service/TicketService.java:73-93 | Fails, saving nothing, exactly when the ticket or the named assignee is missing; otherwise the stored ticket is the updated one with `onUpdate` applied when it changed, and the returned DTO is built from the updated entity before that callback. |
| TicketService.DeleteTicket | helpdesk/src/main/java/com/example/helpdesk/service/TicketService.java:95-98 | The ticket and all its comments and attachments are gone; nothing else changes. |
| TicketService.AssignTicket | helpdesk/src/main/java/com/example/helpdesk/service/TicketService.java:130-142 | Fails exactly when the ticket or user is missing; otherwise any assignee is replaced, the stored ticket leaves OPEN, and the returned DTO carries the loaded timestamps, since `onUpdate` runs only at commit. |
| TicketService.UpdateTicketStatus | helpdesk/src/main/java/com/example/helpdesk/service/TicketService.java:144-151 | Fails exactly when the ticket is missing; otherwise the status becomes the requested one with no transition check, only the status and the update stamps of the stored row change, and the returned DTO carries the loaded timestamps. |
| TicketService.ClaimTicket | helpdesk/src/main/java/com/example/helpdesk/service/TicketService.java:153-172 | Fails when the ticket is missing; an assigned ticket is refused with its assignee's username before the agent is looked up; an unknown agent fails; otherwise the agent becomes the assignee, the ticket leaves OPEN and the DTO is built before `onUpdate`. A failure changes no ticket. |
| CommentService.FindByTicketIdOrderByCreatedAtDesc | helpdesk/src/main/java/com/example/helpdesk/repository/TicketCommentRepository.java:11 | Exactly the comments of that ticket, a permutation of the filtered scan, newest first. |
| CommentService.CountByTicketId | helpdesk/src/main/java/com/example/helpdesk/repository/TicketCommentRepository.java:13 | The size of the matching find query. |
| CommentService.ToDto | helpdesk/src/main/java/com/example/helpdesk/service/TicketCommentService.java:68-78 | The comment's fields with the author's id and username, and first and last name joined by a space, a null name rendered as "null". |
| CommentService.FullNameAgreesWhenNamed | helpdesk/src/main/java/com/example/helpdesk/service/TicketCommentService.java:76 | With both names set, the comment's full name is the author's `getFullName()`. |
| CommentService.FullNameOfUnnamedAuthor | helpdesk/src/main/java/com/example/helpdesk/service/TicketCommentService.java:76 | Without names, the comment's full name is "null null", while `getFullName()` gives the username. |
| CommentService.CommentDtos | helpdesk/src/main/java/com/example/helpdesk/service/TicketCommentService.java:28-30 | One DTO per comment, same order. |
| CommentService.GetCommentsByTicketId | helpdesk/src/main/java/com/example/helpdesk/service/TicketCommentService.java:25-31 | Exactly that ticket's comments, as DTOs, each once (distinct ids), newest first. |
| CommentService.CommentsListed | helpdesk/src/main/java/com/example/helpdesk/service/TicketCommentService.java:25-31 | Mapping the found comments gives exactly that ticket's comment DTOs, each once, newest first. |
| CommentService.GetCommentCountByTicketId | helpdesk/src/main/java/com/example/helpdesk/service/TicketCommentService.java:63-66 | As many as `getCommentsByTicketId` lists. |
| CommentService.AddComment | helpdesk/src/main/java/com/example/helpdesk/service/TicketCommentService.java:33-48 | Fails, creating nothing, exactly when the ticket or user is missing; otherwise one comment with that content, ticket and author is stored, with no further check. |
| CommentService.DeleteComment | helpdesk/src/main/java/com/example/helpdesk/service/TicketCommentService.java:50-61 | A missing comment fails; a caller who is neither admin nor author is refused and the comment survives; otherwise exactly that comment goes. |
| DashboardService.Counters | helpdesk/src/main/java/com/example/helpdesk/service/DashboardService.java:37-45 | The total counts every row and the assigned count is the one given. |
| DashboardService.UserScopeStats | helpdesk/src/main/java/com/example/helpdesk/service/DashboardService.java:25-34 | Every counter ranges over the caller's own tickets, and the assigned count is 0. |
| DashboardService.GlobalScopeStats | helpdesk/src/main/java/com/example/helpdesk/service/DashboardService.java:37-46 | The seven counters range over all tickets; the assigned count is the caller's tickets that are not CLOSED. |
| DashboardService.GetDashboardStats | helpdesk/src/main/java/com/example/helpdesk/service/DashboardService.java:19-48 | An unknown username fails before any counting; otherwise the scope follows `isUserRole`. |
| DashboardService.CountersBounded | helpdesk/src/main/java/com/example/helpdesk/service/DashboardService.java:38-44 | open + in progress + resolved + closed + reopened = total, so the four never exceed it; urgent + high never exceeds it. |
| DashboardService.DashboardBounded | helpdesk/src/main/java/com/example/helpdesk/service/DashboardService.java:19-48 | The bounds hold in either scope, and the user scope's assigned count is 0. |
| DashboardService.UserScopeBelowGlobal | helpdesk/src/main/java/com/example/helpdesk/service/DashboardService.java:26-45 | Each counter of the user scope is at most the matching global counter. |
| DashboardService.AssignedCountExcludesOnlyClosed | helpdesk/src/main/java/com/example/helpdesk/service/DashboardService.java:45 | The global assigned count is the caller's assigned tickets less the CLOSED ones, so RESOLVED and REOPENED ones count. |
| UserService.GetAllUsers | helpdesk/src/main/java/com/example/helpdesk/service/UserService.java:32-35 | Exactly the stored users, one DTO each. |
| UserService.AllUserDtos | helpdesk/src/main/java/com/example/helpdesk/service/UserService.java:32-35 | Mapping the full user scan gives exactly the stored users' DTOs. |
| UserService.GetUserEntityById | helpdesk/src/main/java/com/example/helpdesk/service/UserService.java:44-48 | The stored user, or "User not found" exactly when the id is missing. |
| UserService.GetUserById | helpdesk/src/main/java/com/example/helpdesk/service/UserService.java:37-42 | The stored user's DTO, or "User not found" exactly when the id is missing; no password. |
| UserService.GetUserByUsername | helpdesk/src/main/java/com/example/helpdesk/service/UserService.java:50-54 | The user with that username, or "User not found" exactly when nobody has it. |
| UserService.GetUserByUsernameFindsOwner | helpdesk/src/main/java/com/example/helpdesk/service/UserService.java:50-54 | Looking up a stored user's own username finds that user. |
| UserService.ResolveDepartment | helpdesk/src/main/java/com/example/helpdesk/service/UserService.java:78-82 | No id keeps the current department, a known id gives that department, an unknown id gives none. |
| UserService.FindOrCreateRole | helpdesk/src/main/java/com/example/helpdesk/service/UserService.java:64-71 | The stored role of that name is reused and nothing changes; with none, a role of that name and description "User role" is created. |
| UserService.CreatedUserFromSteps | helpdesk/src/main/java/com/example/helpdesk/service/UserService.java:56-86 | The steps of `createUser` add up to its promised result: one new ACTIVE user, exactly that one role, the encoded password and the DTO's fields. |
| UserService.CreateUser | helpdesk/src/main/java/com/example/helpdesk/service/UserService.java:56-86 | Succeeds exactly when password, username and email are given and no user has that username or email; the new user is ACTIVE with exactly the named role (reused or created) and the existing department, if given; a failure rolls back everything, new role included. |
| UserService.UpdateUser | helpdesk/src/main/java/com/example/helpdesk/service/UserService.java:88-103 | A missing user fails; otherwise the non-null fields are copied, the department is replaced only when an id is given, and a username or email taken by another user is refused with nothing changed. |
| UserService.DeleteUser | helpdesk/src/main/java/com/example/helpdesk/service/UserService.java:105-108 | Refused exactly when the user exists and some row still refers to it; otherwise the user (if any) goes and nothing else changes. |
| UserService.UpdateLastLogin | helpdesk/src/main/java/com/example/helpdesk/service/UserService.java:110-115 | An unknown username fails; otherwise only that user's `lastLogin` changes, to the clock. |
| UserService.GetUsersByRole | helpdesk/src/main/java/com/example/helpdesk/service/UserService.java:117-120 | Exactly the stored users holding a role of that name, each once (distinct ids). |
| UserService.GetActiveUsers | helpdesk/src/main/java/com/example/helpdesk/service/UserService.java:122-125 | Exactly the stored users whose status is ACTIVE, each once (distinct ids). |
| TicketController.ScopedToCreator | helpdesk/src/main/java/com/example/helpdesk/controller/TicketController.java:53-55 | Every ticket of a creator-scoped list carries the caller as creator username. |
| TicketController.ListTickets | helpdesk/src/main/java/com/example/helpdesk/controller/TicketController.java:37-68 | A plain user gets exactly its own tickets, anyone else every ticket, each once, newest first; an unknown plain user fails. |
| TicketController.SearchTickets | helpdesk/src/main/java/com/example/helpdesk/controller/TicketController.java:237-285 | Scoped like the list; an unknown plain user or a failing search gives an empty page with zero totals. |
| TicketController.ViewTicket | helpdesk/src/main/java/com/example/helpdesk/controller/TicketController.java:103-125 | Any existing ticket is shown with its comments to any caller; `canEdit` and `canDelete` are admin-or-owner. |
| TicketController.EditTicketForm | helpdesk/src/main/java/com/example/helpdesk/controller/TicketController.java:127-170 | A missing ticket fails; a caller who is neither admin nor owner is denied; otherwise the form is prefilled with the ticket's own fields, assignee and department. |
| TicketController.PrefillFindsAssignee | helpdesk/src/main/java/com/example/helpdesk/controller/TicketController.java:149-154 | The assignee found again by username is the ticket's assignee. |
| TicketController.PrefillFindsDepartment | helpdesk/src/main/java/com/example/helpdesk/controller/TicketController.java:155-160 | The department found again by name is the ticket's department. |
| TicketController.UnchangedFormKeepsTicket | helpdesk/src/main/java/com/example/helpdesk/controller/TicketController.java:127-170 | Submitting the prefilled edit form unchanged gives back the same ticket. |
| TicketController.UpdateTicket | helpdesk/src/main/java/com/example/helpdesk/controller/TicketController.java:172-209 | A missing ticket fails; a caller who is neither admin nor owner is denied before validation errors are looked at; an invalid form is sent back; otherwise the service update runs. Only that last step changes anything. |
| TicketController.DeleteTicket | helpdesk/src/main/java/com/example/helpdesk/controller/TicketController.java:211-235 | A missing ticket fails; a caller who is neither admin nor owner is refused with nothing deleted; otherwise the ticket goes with its comments and attachments. |
| TicketController.CreateTicket | helpdesk/src/main/java/com/example/helpdesk/controller/TicketController.java:79-101 | An invalid form is sent back with nothing created; otherwise the caller's ticket is created, OPEN and unassigned, exactly when the caller exists. |
| TicketController.ClaimTicket | helpdesk/src/main/java/com/example/helpdesk/controller/TicketController.java:287-300 | Succeeds exactly when the ticket exists unassigned and the caller exists; the caller becomes the assignee and the ticket leaves OPEN. |
| TicketController.UpdateTicketStatus | helpdesk/src/main/java/com/example/helpdesk/controller/TicketController.java:302-313 | Succeeds exactly when the ticket exists; the status becomes the one asked. |
| TicketController.AddComment | helpdesk/src/main/java/com/example/helpdesk/controller/TicketController.java:316-329 | Succeeds exactly when ticket and caller exist; the new comment has that content and ticket and the caller as author. |
| TicketController.DeleteComment | helpdesk/src/main/java/com/example/helpdesk/controller/TicketController.java:331-346 | Succeeds exactly when the comment exists and the caller is admin or author; exactly that comment goes, and a failure changes nothing. |
| TicketRestController.GetTicket | helpdesk/src/main/java/com/example/helpdesk/controller/api/TicketRestController.java:45-63 | A missing ticket fails before any role check; a plain user who did not create it gets 403; anyone else gets it. |
| TicketRestController.GetTicketAllowedIff | helpdesk/src/main/java/com/example/helpdesk/controller/api/TicketRestController.java:57-62 | A stored ticket is served exactly to staff and to its creator. |
| TicketRestController.SearchTickets | helpdesk/src/main/java/com/example/helpdesk/controller/api/TicketRestController.java:65-90 | Staff get the global search; a plain user gets exactly the global results whose creator username is its own; either way each ticket once, newest first. |
| TicketRestController.SearchAgreesWithScopedSearch | helpdesk/src/main/java/com/example/helpdesk/controller/api/TicketRestController.java:79-87 | For a plain user, the narrowed global search holds exactly the tickets of the user-scoped search. |
| TicketRestController.NarrowedIsScoped | helpdesk/src/main/java/com/example/helpdesk/controller/api/TicketRestController.java:83-85 | A global result carrying the caller's username is in the user-scoped search. |
| TicketRestController.ScopedIsNarrowed | helpdesk/src/main/java/com/example/helpdesk/controller/api/TicketRestController.java:83-85 | A user-scoped result is a global result carrying the user's username. |
| TicketRestController.AssignTicket | helpdesk/src/main/java/com/example/helpdesk/controller/api/TicketRestController.java:92-95 | No role check: succeeds exactly when ticket and user exist; the stored ticket is the flushed assignment, out of OPEN, and the returned DTO is the assigned entity before `onUpdate`. |
| TicketRestController.UpdateStatus | helpdesk/src/main/java/com/example/helpdesk/controller/api/TicketRestController.java:97-100 | No role check: succeeds exactly when the ticket exists; the status becomes the one asked. |
| AdminController.UpdateUserRole | helpdesk/src/main/java/com/example/helpdesk/controller/AdminController.java:55-77 | An unknown user or role name fails with nothing changed; otherwise the user's role set becomes exactly that role and nothing else changes. |
| AdminController.UpdateUserStatus | helpdesk/src/main/java/com/example/helpdesk/controller/AdminController.java:79-96 | An unknown user fails with nothing changed; otherwise only that user's status changes. |
| AdminController.Unassigned | helpdesk/src/main/java/com/example/helpdesk/controller/AdminController.java:116-117 | A saved ticket has no assignee; only the assignee and update stamps change, and an unassigned ticket is left as it was. |
| AdminController.UnassignAll | helpdesk/src/main/java/com/example/helpdesk/controller/AdminController.java:114-118 | The same tickets; those assigned to the user lose their assignee; every other ticket is unchanged. |
| AdminController.UnassignedReferencedIff | helpdesk/src/main/java/com/example/helpdesk/controller/AdminController.java:114-123 | Once unassigned, a user is still referenced exactly when it created a ticket, wrote a comment or uploaded a file. |
| AdminController.UnassignStep | helpdesk/src/main/java/com/example/helpdesk/controller/AdminController.java:115-118 | Each pass of the loop unassigns that row's ticket and nothing else. |
| AdminController.UnassignedAll | helpdesk/src/main/java/com/example/helpdesk/controller/AdminController.java:114-118 | After every found row is handled, the table is fully unassigned. |
| AdminController.UnassignOne | helpdesk/src/main/java/com/example/helpdesk/controller/AdminController.java:116-117 | One pass: the ticket is saved with no assignee. |
| AdminController.UnassignRows | helpdesk/src/main/java/com/example/helpdesk/controller/AdminController.java:115-118 | The loop saves each row's ticket with no assignee, one at a time. |
| AdminController.UnassignTickets | helpdesk/src/main/java/com/example/helpdesk/controller/AdminController.java:114-118 | Every ticket found assigned to the user is saved unassigned; nothing else changes. |
| AdminController.AssignedRowsStored | helpdesk/src/main/java/com/example/helpdesk/controller/AdminController.java:114 | The rows found are exactly the stored tickets assigned to the user. |
| AdminController.DeleteUser | helpdesk/src/main/java/com/example/helpdesk/controller/AdminController.java:98-131 | An unknown id and a self-deletion both fail with nothing changed; otherwise the assigned tickets are unassigned and the user deleted, which fails, rolling everything back, exactly when the user still owns rows; afterwards every previously assigned ticket exists unassigned. |
| ProfileController.ChosenDepartment | helpdesk/src/main/java/com/example/helpdesk/controller/ProfileController.java:60-63 | A given, existing department replaces the current one; anything else keeps it. |
| ProfileController.UpdateProfile | helpdesk/src/main/java/com/example/helpdesk/controller/ProfileController.java:34-71 | An unknown user fails; a changed email used by another account is refused with nothing changed; keeping the email skips the check; otherwise names, email and phone are set as given and the department only to an existing one. |
| ProfileController.ChangePassword | helpdesk/src/main/java/com/example/helpdesk/controller/ProfileController.java:73-109 | The checks run in order (current password matches, new equals confirmation, at least six UTF-16 units) and the first failure is reported; only when all pass is the password replaced by its encoding. |

## Left out

- Web plumbing is not modelled: view names, model attributes, flash message texts, redirects, `ResponseEntity` wrapping and the HTTP status of uncaught exceptions. A failure is an `Err` or an `Outcome`, not a page.
- Pagination is left out. The paginated service methods called by the ticket pages (`getTicketsByUserPaginated`, `getAllTicketsPaginated`, `searchTicketsByUserPaginated`, `searchTicketsPaginated`) are not declared in the service source. They are modelled as the unpaged lists and searches ordered newest first: the creator-scoped ones and the global ones. `listUsers` on the admin page and the form pages that only fill model attributes are not modelled.
- `getAllTickets` of the REST controller uses the same scoping and the same service calls as `TicketController.ListTickets`, so that function stands for both.
- `ticketMapper.updateEntity`, which `updateTicket` calls, is not declared in the mapper source. It is modelled as copying the non-null title, description, status, priority and category (`TicketMapper.UpdateEntity`). `userMapper.updateEntity`, which `updateUser` calls, is not declared either. It is modelled as the declared `updateUserFromDto`, which ignores nulls.
- The `UserStatus`, `Role`, `RoleRepository` and `DepartmentRepository` sources are not part of this model.
  - The user status is `Active` or another named status.
  - Role names are not assumed unique, so looking a role up by name returns the first of that name.
- Claim is modelled for a single caller, as a sequential read-check-write. Races between concurrent claims are not modelled.
- Security route matching is not modelled. The AGENT/ADMIN rule for the claim and status pages is the precondition `!IsPlainUser(caller)` of `TicketController.ClaimTicket` and `TicketController.UpdateTicketStatus`. The class-level admin rule of the admin controller is assumed of its callers.
- Password hashing is an uninterpreted `encode`/`matches` pair given as parameters.
- TicketRepository.SearchTickets: keywords containing the LIKE wildcards `%` or `_` are excluded by a precondition, because the model matches the keyword as a plain substring.
- TicketService.SearchTickets: keywords with `%` or `_` are excluded by precondition, as for `TicketRepository.SearchTickets`.
- TicketService.SearchTicketsByUser: keywords with `%` or `_` are excluded by precondition, as for `TicketRepository.SearchTickets`.
- TicketController.SearchTickets: keywords with `%` or `_` are excluded by precondition, as for `TicketRepository.SearchTickets`.
- TicketRestController.SearchTickets: keywords with `%` or `_` are excluded by precondition, as for `TicketRepository.SearchTickets`.
- Text.Lower: lower-cases ASCII letters only, where SQL `LOWER` also folds other letters.
- TicketMapper.ToDto: the model's `TicketDto` carries both the fields dto/TicketDto.java declares and the targets the mapper's `@Mapping`s name (creator, assignee and department ids, comment and attachment counts), which that class does not declare; as written the two do not agree and the mapper would not compile. The full names the class declares are left null, as no mapping fills them.
- UserService.CreateUser: the model's `UserDto` has a `password` field, because `createUser` reads one from the DTO; dto/UserDto.java as written declares none. `UserMapper.ToDto` leaves it null.
- TicketController.SearchTickets: the search itself cannot fail in the model. The failure that the page's `try` catches is given as the parameter `searchFails`.
- TicketController.ClaimTicket: states the outcome, the new assignee and the status. It does not state the whole new state; `TicketService.ClaimTicket` does.
- TicketController.CreateTicket: states the new ticket's status, assignee and creator and that no other ticket changes. It does not state the other fields; `TicketService.CreateTicket` does.
- TicketController.UpdateTicketStatus: states the new status. It does not state the whole new state; `TicketService.UpdateTicketStatus` does.
- TicketController.AddComment: states the new comment's content, ticket and author. It does not state the whole new state; `CommentService.AddComment` does.
- TicketRestController.AssignTicket: states the stored ticket and the returned DTO, but not that the other tables and counters are unchanged; `TicketService.AssignTicket` states that.
- TicketRestController.UpdateStatus: states the new status only. `TicketService.UpdateTicketStatus` states the whole new state.
- TicketRepository.FindByDepartmentId: the query has no ORDER BY, so no order is stated.
- UserService.GetAllUsers: `findAll()` has no ORDER BY. The model scans in id order, but that order is not part of the contract.
- Attachment storage is not modelled: file contents, paths, types and sizes. Only attachment rows and their count are modelled.
- Startup seeding, the client-side scripts and the thin routing controllers are not modelled.
- Error messages are modelled as error kinds carrying the id or name that the message quotes, not as message text.
- Timestamps are natural numbers read from a clock that never goes back. Calendar arithmetic is not modelled.
