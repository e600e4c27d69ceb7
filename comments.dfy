/** The comment thread under a headline: loading the visible comments newest
    first, and posting a new one, which is refused while another post is in
    flight or when the text is blank. */
module Comments {
  import opened Wrappers
  import opened Text
  import opened Sequences

  const VisibleStatus: string := "visible"
  const AnonymousName: string := "Anonymous"
  const LoadError: string := "Failed to load comments"
  const PostError: string := "Failed to post comment. Please try again."
  const PostSuccess: string := "Comment posted successfully!"

  /** The insert payload. */
  datatype NewComment = NewComment(headlineId: string, commentText: string, anonymousName: string, status: string)

  /** A stored comment; the database adds the id and the creation time (ms). */
  datatype Comment = Comment(id: string, headlineId: string, commentText: string, anonymousName: string,
                             status: string, createdAt: int)

  /** The record `addComment` inserts. */
  function BuildComment(headlineId: string, text: string, name: Option<string>): (c: NewComment)
    ensures c.headlineId == headlineId && c.status == VisibleStatus
    ensures c.commentText == Trim(text)
    ensures name.Some? && !IsBlank(name.value) ==> c.anonymousName == Trim(name.value) && c.anonymousName != []
    ensures name.None? || IsBlank(name.value) ==> c.anonymousName == AnonymousName
  {
    var trimmedName := if name.Some? then Trim(name.value) else [];
    NewComment(headlineId, Trim(text), if trimmedName != [] then trimmedName else AnonymousName, VisibleStatus)
  }

  /** A comment offered for a non-blank text never has blank text or name. */
  lemma BuiltCommentNotBlank(headlineId: string, text: string, name: Option<string>)
    requires !IsBlank(text)
    ensures BuildComment(headlineId, text, name).commentText != []
    ensures BuildComment(headlineId, text, name).anonymousName != []
  {
  }

  function CreatedKey(c: Comment): real { c.createdAt as real }

  function VisibleTest(headlineId: string): Comment -> bool {
    (c: Comment) => c.headlineId == headlineId && c.status == VisibleStatus
  }

  /** The rows `fetchComments` loads: the headline's visible comments,
      newest first. */
  function VisibleFor(table: seq<Comment>, headlineId: string): (r: seq<Comment>)
    ensures SortedDesc(r, CreatedKey)
    ensures multiset(r) == multiset(Filter(table, VisibleTest(headlineId)))
  {
    SortDesc(Filter(table, VisibleTest(headlineId)), CreatedKey)
  }

  /** Exactly the headline's visible comments are loaded, each once per stored copy. */
  lemma VisibleForExactly(table: seq<Comment>, headlineId: string, c: Comment)
    ensures c in VisibleFor(table, headlineId) <==> c in table && c.headlineId == headlineId && c.status == VisibleStatus
  {
    var f := Filter(table, VisibleTest(headlineId));
    assert c in VisibleFor(table, headlineId) <==> c in multiset(f);
    if c in f {
      var i :| 0 <= i < |f| && f[i] == c;
      assert VisibleTest(headlineId)(f[i]);
    }
    if c in table && c.headlineId == headlineId && c.status == VisibleStatus {
      var i :| 0 <= i < |table| && table[i] == c;
      assert VisibleTest(headlineId)(table[i]);
    }
  }

  class CommentTable {
    var rows: seq<Comment>

    constructor (rows: seq<Comment>)
      ensures this.rows == rows
    {
      this.rows := rows;
    }

    method Insert(c: NewComment, id: string, createdAt: int)
      modifies this
      ensures rows == old(rows) + [Comment(id, c.headlineId, c.commentText, c.anonymousName, c.status, createdAt)]
    {
      rows := rows + [Comment(id, c.headlineId, c.commentText, c.anonymousName, c.status, createdAt)];
    }
  }

  /** The hook's state for one headline. */
  class CommentsState {
    const headlineId: string
    var comments: seq<Comment>
    var loading: bool
    var error: Option<string>
    var isPosting: bool
    var successMessage: Option<string>

    constructor (headlineId: string)
      ensures this.headlineId == headlineId
      ensures comments == [] && loading && error.None? && !isPosting && successMessage.None?
    {
      this.headlineId := headlineId;
      comments := [];
      loading := true;
      error := None;
      isPosting := false;
      successMessage := None;
    }

    /** `fetchComments`; `fails` says whether the query errs. */
    method FetchComments(table: seq<Comment>, fails: bool)
      modifies this`comments, this`loading, this`error
      ensures !loading
      ensures fails ==> error == Some(LoadError) && comments == old(comments)
      ensures !fails ==> error.None? && comments == VisibleFor(table, headlineId)
    {
      loading := true;
      error := None;
      if fails {
        error := Some(LoadError);
      } else {
        comments := VisibleFor(table, headlineId);
      }
      loading := false;
    }

    /** The first half of `addComment`: refused for blank text or while a
        post is in flight; otherwise marks the post in flight, clears the
        error and returns the record to insert. */
    method BeginAddComment(text: string, name: Option<string>) returns (pending: Option<NewComment>)
      modifies this`isPosting, this`error
      ensures IsBlank(text) || old(isPosting) ==>
        pending.None? && isPosting == old(isPosting) && error == old(error)
      ensures !IsBlank(text) && !old(isPosting) ==>
        pending == Some(BuildComment(headlineId, text, name)) && isPosting && error.None?
    {
      if Trim(text) == [] || isPosting {
        return None;
      }
      isPosting := true;
      error := None;
      pending := Some(BuildComment(headlineId, text, name));
    }

    /** The second half of `addComment`, once the insert has answered: on
        success the thread is reloaded, on failure the error is shown; the
        post is no longer in flight either way. */
    method FinishAddComment(db: CommentTable, c: NewComment, insertFails: bool, id: string, createdAt: int,
                            reloadFails: bool)
      modifies this`comments, this`loading, this`error, this`isPosting, this`successMessage, db
      ensures !isPosting
      ensures insertFails ==>
        error == Some(PostError) && db.rows == old(db.rows) && comments == old(comments)
        && successMessage == old(successMessage) && loading == old(loading)
      ensures !insertFails ==>
        db.rows == old(db.rows) + [Comment(id, c.headlineId, c.commentText, c.anonymousName, c.status, createdAt)]
        && successMessage == Some(PostSuccess) && !loading
        && (reloadFails ==> error == Some(LoadError) && comments == old(comments))
        && (!reloadFails ==> error.None? && comments == VisibleFor(db.rows, headlineId))
    {
      if insertFails {
        error := Some(PostError);
      } else {
        db.Insert(c, id, createdAt);
        successMessage := Some(PostSuccess);
        FetchComments(db.rows, reloadFails);
      }
      isPosting := false;
    }
  }

  /** A comment posted on this headline and not rejected shows up in the reloaded thread. */
  lemma PostedCommentShown(rows: seq<Comment>, c: NewComment, id: string, createdAt: int)
    requires c.status == VisibleStatus
    ensures Comment(id, c.headlineId, c.commentText, c.anonymousName, c.status, createdAt)
            in VisibleFor(rows + [Comment(id, c.headlineId, c.commentText, c.anonymousName, c.status, createdAt)], c.headlineId)
  {
    var stored := Comment(id, c.headlineId, c.commentText, c.anonymousName, c.status, createdAt);
    VisibleForExactly(rows + [stored], c.headlineId, stored);
    assert (rows + [stored])[|rows|] == stored;
  }
}
