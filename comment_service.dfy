/**
 * TicketCommentService and the comment queries of TicketCommentRepository: listing a
 * ticket's comments newest first, adding a comment, and deleting one, which only an
 * admin or the comment's author may do.
 */
module CommentService {
  import opened Wrappers
  import opened Errors
  import opened Records
  import opened UserEntity
  import opened Seqs
  import opened Tables
  import opened Dtos
  import opened Store

  /** The sort key of `findByTicket_IdOrderByCreatedAtDesc`. */
  function CommentCreatedAt(c: Comment): int {
    c.createdAt
  }

  /** `findByTicket_IdOrderByCreatedAtDesc`: the ticket's comments, newest first. */
  function FindByTicketIdOrderByCreatedAtDesc(rows: seq<Comment>, ticketId: nat): (r: seq<Comment>)
    ensures forall c :: c in r <==> c in rows && c.ticketId == ticketId
    ensures |r| == |Filter(rows, IsCommentOf(ticketId))|
    ensures multiset(r) == multiset(Filter(rows, IsCommentOf(ticketId)))
    ensures Descending(r, CommentCreatedAt)
  {
    var r := SortDescending(Filter(rows, IsCommentOf(ticketId)), CommentCreatedAt);
    SameElements(r, Filter(rows, IsCommentOf(ticketId)));
    r
  }

  /** `countByTicket_Id`. */
  function CountByTicketId(rows: seq<Comment>, ticketId: nat): (n: nat)
    ensures n == |FindByTicketIdOrderByCreatedAtDesc(rows, ticketId)|
  {
    CountIsFilterSize(rows, IsCommentOf(ticketId));
    CountWhere(rows, IsCommentOf(ticketId))
  }

  /** A nullable string as Java's string concatenation renders it. */
  function JavaString(s: Option<string>): string {
    match s case Some(v) => v case None => "null"
  }

  /**
   * `toDto(comment)`: the comment with its author's id and username, and a full name that
   * joins the first and last name with a space, with a null name rendered as "null".
   */
  function ToDto(c: Comment, author: User): (d: CommentDto)
    ensures d.id == c.id && d.content == c.content && d.createdAt == c.createdAt && d.ticketId == c.ticketId
    ensures d.userId == author.id && d.username == author.username
    ensures d.userFullName == JavaString(author.firstName) + " " + JavaString(author.lastName)
  {
    CommentDto(c.id, c.content, c.createdAt, c.ticketId, author.id, author.username,
               JavaString(author.firstName) + " " + JavaString(author.lastName))
  }

  /** With both names set, the comment's full name is the author's `getFullName()`. */
  lemma FullNameAgreesWhenNamed(c: Comment, author: User)
    requires author.firstName.Some? && author.lastName.Some?
    ensures ToDto(c, author).userFullName == FullName(author)
  {
  }

  /**
   * Without names, the comment's full name is "null null", where `getFullName()` would
   * give the username.
   */
  lemma FullNameOfUnnamedAuthor(c: Comment, author: User)
    requires author.firstName.None? && author.lastName.None?
    ensures ToDto(c, author).userFullName == "null null"
    ensures FullName(author) == author.username
  {
  }

  function CommentDtoOf(s: State, c: Comment): CommentDto
    requires c.userId in s.users
  {
    ToDto(c, s.users[c.userId])
  }

  /** `stream().map(this::toDto)` over comments whose authors are stored. */
  function CommentDtos(s: State, cs: seq<Comment>): (r: seq<CommentDto>)
    requires forall c :: c in cs ==> c.userId in s.users
    ensures |r| == |cs| && forall i :: 0 <= i < |cs| ==> r[i] == CommentDtoOf(s, cs[i])
  {
    if cs == [] then [] else [CommentDtoOf(s, cs[0])] + CommentDtos(s, cs[1..])
  }

  /** `getCommentsByTicketId`: exactly that ticket's comments, each once, newest first. */
  function GetCommentsByTicketId(s: State, ticketId: nat): (r: seq<CommentDto>)
    requires ValidState(s)
    ensures forall d :: d in r <==> exists id :: id in s.comments && s.comments[id].ticketId == ticketId &&
                                                d == CommentDtoOf(s, s.comments[id])
    ensures forall i, j :: 0 <= i < j < |r| ==> r[i].id != r[j].id
    ensures forall i, j :: 0 <= i < j < |r| ==> r[i].createdAt >= r[j].createdAt
    ensures forall d :: d in r ==> d.ticketId == ticketId
  {
    var cs := FindByTicketIdOrderByCreatedAtDesc(CommentRows(s), ticketId);
    CommentRowsComplete(s);
    var r := CommentDtos(s, cs);
    CommentsListed(s, ticketId, cs, r);
    r
  }

  lemma CommentsListed(s: State, ticketId: nat, cs: seq<Comment>, r: seq<CommentDto>)
    requires ValidState(s)
    requires forall c :: c in cs <==> c in CommentRows(s) && c.ticketId == ticketId
    requires multiset(cs) <= multiset(CommentRows(s))
    requires Descending(cs, CommentCreatedAt)
    requires |r| == |cs| && forall i :: 0 <= i < |cs| ==> cs[i].userId in s.users && r[i] == CommentDtoOf(s, cs[i])
    ensures forall d :: d in r <==> exists id :: id in s.comments && s.comments[id].ticketId == ticketId &&
                                                d == CommentDtoOf(s, s.comments[id])
    ensures forall i, j :: 0 <= i < j < |r| ==> r[i].id != r[j].id
    ensures forall i, j :: 0 <= i < j < |r| ==> r[i].createdAt >= r[j].createdAt
  {
    CommentRowsComplete(s);
    OncePerKeyOfSelection(cs, CommentRows(s), CommentKey);
    OncePerKeyDistinct(cs, CommentKey);
    forall i, j | 0 <= i < j < |r| ensures r[i].id != r[j].id {
      assert CommentKey(cs[i]) != CommentKey(cs[j]);
    }
    forall d | d in r
      ensures exists id :: id in s.comments && s.comments[id].ticketId == ticketId && d == CommentDtoOf(s, s.comments[id])
    {
      var i :| 0 <= i < |r| && r[i] == d;
      assert cs[i] in cs;
      assert s.comments[cs[i].id] == cs[i];
    }
    forall id | id in s.comments && s.comments[id].ticketId == ticketId
      ensures CommentDtoOf(s, s.comments[id]) in r
    {
      assert s.comments[id].id == id;
      assert s.comments[id] in cs;
      var i :| 0 <= i < |cs| && cs[i] == s.comments[id];
      assert r[i] == CommentDtoOf(s, s.comments[id]);
    }
    forall i, j | 0 <= i < j < |r| ensures r[i].createdAt >= r[j].createdAt {
      assert CommentCreatedAt(cs[i]) >= CommentCreatedAt(cs[j]);
    }
  }

  /** `getCommentCountByTicketId`: as many as `getCommentsByTicketId` lists. */
  function GetCommentCountByTicketId(s: State, ticketId: nat): (n: nat)
    requires ValidState(s)
    ensures n == |GetCommentsByTicketId(s, ticketId)|
  {
    CountByTicketId(CommentRows(s), ticketId)
  }

  /**
   * `addComment(ticketId, username, content)`: a missing ticket or user fails and nothing is
   * created; otherwise one comment with that content, ticket and author is stored, with no
   * check of who the author is or what the content says.
   */
  method AddComment(db: Database, ticketId: nat, username: string, content: string, now: nat)
    returns (r: Result<CommentDto, Error>)
    requires db.Valid() && db.clock <= now
    modifies db
    ensures db.Valid()
    ensures r.Err? <==> ticketId !in old(db.tickets) || forall k :: k in old(db.users) ==> old(db.users)[k].username != username
    ensures r.Err? ==> db.Snapshot() == old(db.Snapshot()).(clock := now)
    ensures r.Err? ==> r.error == (if ticketId !in old(db.tickets) then TicketNotFound(ticketId) else UsernameNotFound(username))
    ensures r.Ok? ==>
      exists userId :: userId in old(db.users) && old(db.users)[userId].username == username &&
        var c := Comment(old(db.nextCommentId), content, ticketId, userId, now, false);
        && db.Snapshot() == old(db.Snapshot()).(comments := old(db.comments)[c.id := c],
                                                nextCommentId := c.id + 1, clock := now)
        && r.value == ToDto(c, old(db.users)[userId])
  {
    db.Advance(now);
    if ticketId !in db.tickets {
      return Err(TicketNotFound(ticketId));
    }
    var user := FindUserByUsername(db.Snapshot(), username);
    if user.None? {
      return Err(UsernameNotFound(username));
    }
    var c := db.PersistComment(content, ticketId, user.value.id);
    r := Ok(ToDto(c, user.value));
  }

  /** The deletion rule: an admin, or the comment's author. */
  predicate MayDeleteComment(isAdmin: bool, authorUsername: string, username: string) {
    isAdmin || authorUsername == username
  }

  /**
   * `deleteComment(commentId, username, isAdmin)`: a missing comment fails; a caller who is
   * neither an admin nor the author is refused and the comment survives; otherwise exactly
   * that comment is removed.
   */
  method DeleteComment(db: Database, commentId: nat, username: string, isAdmin: bool) returns (r: Result<(), Error>)
    requires db.Valid()
    modifies db
    ensures db.Valid()
    ensures commentId !in old(db.comments) ==> r == Err(CommentNotFound(commentId))
    ensures commentId in old(db.comments) ==>
      var author := old(db.users)[old(db.comments)[commentId].userId].username;
      (r.Ok? <==> MayDeleteComment(isAdmin, author, username)) &&
      (r.Err? ==> r.error == NotCommentAuthor)
    ensures r.Err? ==> db.Snapshot() == old(db.Snapshot())
    ensures r.Ok? ==> db.Snapshot() == old(db.Snapshot()).(comments := old(db.comments) - {commentId})
  {
    if commentId !in db.comments {
      return Err(CommentNotFound(commentId));
    }
    var c := db.comments[commentId];
    if !MayDeleteComment(isAdmin, db.users[c.userId].username, username) {
      return Err(NotCommentAuthor);
    }
    db.RemoveComment(commentId);
    r := Ok(());
  }
}
