/** actions/comment.ts: adding a comment to a post. */
module CommentActions {
  import opened Wrappers
  import opened Store
  import opened Text

  const MaxCommentLength := 1000

  const InvalidPostId := "Invalid post ID"
  const CommentRequired := "Comment content is required"
  const CommentEmpty := "Comment cannot be empty"
  const CommentTooLong := "Comment must be less than 1000 characters"
  const NotAuthenticated := "Not authenticated"
  const InsertFailed := "Failed to add comment"

  /** The input checks of addComment, in source order: the post id, then the text. */
  function InputError(postId: string, content: string): (r: Option<string>)
    ensures r.None? <==> postId != "" && content != "" && 0 < Utf16Length(Trim(content)) <= MaxCommentLength
    ensures postId == "" ==> r == Some(InvalidPostId)
  {
    if postId == "" then Some(InvalidPostId)
    else TrimmedTextError(content, MaxCommentLength, CommentRequired, CommentEmpty, CommentTooLong)
  }

  method AddComment(db: Db, postId: string, content: string, newId: string, createdAt: int, fault: bool)
    returns (r: Outcome)
    modifies db`comments
    ensures InputError(postId, content).Some? ==> r == Err(InputError(postId, content).value)
    ensures InputError(postId, content).None? && db.caller.None? ==> r == Err(NotAuthenticated)
    ensures InputError(postId, content).None? && db.caller.Some? ==> r == if fault then Err(InsertFailed) else Ok
    ensures r.Err? ==> db.comments == old(db.comments)
    ensures r.Ok? ==> (db.caller.Some? &&
      db.comments == old(db.comments) + [Comment(newId, postId, db.caller.value.id, Trim(content), createdAt)])
  {
    var inputError := InputError(postId, content);
    if inputError.Some? {
      return Err(inputError.value);
    }
    if db.caller.None? {
      return Err(NotAuthenticated);
    }
    if fault {
      return Err(InsertFailed);
    }
    db.comments := db.comments + [Comment(newId, postId, db.caller.value.id, Trim(content), createdAt)];
    r := Ok;
  }

  /** A comment of only whitespace is refused as empty, not as missing. */
  lemma BlankCommentIsEmpty(postId: string, content: string)
    requires postId != "" && content != ""
    requires forall i :: 0 <= i < |content| ==> IsJsWhitespace(content[i])
    ensures InputError(postId, content) == Some(CommentEmpty)
  {
  }

  /** A stored comment is trimmed, non-empty and at most 1000 UTF-16 code units long. */
  lemma StoredCommentBounds(postId: string, content: string)
    requires InputError(postId, content).None?
    ensures var stored := Trim(content);
      stored != "" && Utf16Length(stored) <= MaxCommentLength && Trim(stored) == stored
  {
    TrimIdempotent(content);
  }
}
