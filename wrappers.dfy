/** Nullable references and exception-carrying results, as the Java code uses them. */
module Wrappers {
  /** A Java reference that may be null. */
  datatype Option<T> = None | Some(value: T)

  /** The outcome of a call that may throw: a value, or the exception it raised. */
  datatype Result<T, E> = Ok(value: T) | Err(error: E)
}

/** The exceptions and refusals raised by the services and controllers. */
module Errors {
  datatype Error =
    | TicketNotFound(ticketId: nat)            // "Ticket not found with id: ..." / "Ticket not found"
    | UserNotFound(userId: nat)                // "User not found with id: ..." / "User not found"
    | UsernameNotFound(username: string)       // "User not found: ..."
    | AlreadyAssigned(assignee: string)        // "Ticket is already assigned to <username>"
    | CommentNotFound(commentId: nat)          // "Comment not found"
    | NotCommentAuthor                         // "You don't have permission to delete this comment"
    | RoleNotFound(roleName: string)           // "Role not found"
    | ConstraintViolation                      // a NOT NULL, UNIQUE or foreign-key check of the database
    | NullPassword                             // the password encoder refuses a null raw password
    | Forbidden                                // HTTP 403 from the REST controller
    | SelfDeletion                             // "You cannot delete your own account!"
    | EmailInUse                               // "Email is already in use by another account"
    | PasswordIncorrect                        // "Current password is incorrect"
    | PasswordsDoNotMatch                      // "New passwords do not match"
    | PasswordTooShort                         // "New password must be at least 6 characters"
}
