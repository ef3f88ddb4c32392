/** actions/post.ts: creating a post (with an optional image upload and a profile created
    on first use) and deleting one's own post. */
module PostActions {
  import opened Wrappers
  import opened Store
  import opened Text

  const MaxContentLength := 5000
  const MaxFileSize := 5 * 1024 * 1024
  const AllowedFileTypes := ["image/jpeg", "image/jpg", "image/png", "image/gif", "image/webp"]

  const ContentRequired := "Content is required"
  const ContentEmpty := "Content cannot be empty"
  const ContentTooLong := "Content must be less than 5000 characters"
  const FileTooLarge := "File size must be less than 5MB"
  const FileNotImage := "File must be an image (JPEG, PNG, GIF, or WebP)"
  const NotAuthenticated := "Not authenticated"
  const ProfileFailed := "Failed to create user profile"
  const UploadFailed := "Failed to upload image"
  const InsertFailed := "Failed to create post"
  const InvalidPostId := "Invalid post ID"
  const DeleteFailed := "Failed to delete post"

  /** The attached file as the action sees it: name, size in bytes and MIME type. */
  datatype File = File(name: string, size: nat, mimeType: string)

  /** The input checks of createPost, in source order: content, then the file. */
  function InputError(content: string, file: Option<File>): (r: Option<string>)
    ensures r.None? <==>
      content != "" && 0 < Utf16Length(Trim(content)) <= MaxContentLength &&
      (file.Some? ==> file.value.size <= MaxFileSize && file.value.mimeType in AllowedFileTypes)
  {
    var contentError := TrimmedTextError(content, MaxContentLength, ContentRequired, ContentEmpty, ContentTooLong);
    if contentError.Some? then contentError
    else if file.Some? && file.value.size > MaxFileSize then Some(FileTooLarge)
    else if file.Some? && file.value.mimeType !in AllowedFileTypes then Some(FileNotImage)
    else None
  }

  /** `user.email?.split('@')[0] || "user_" + user.id.substring(0, 8)`. */
  function FallbackUsername(user: AuthUser): (r: string)
    ensures user.email.Some? && BeforeFirst(user.email.value, '@') != "" ==> r == BeforeFirst(user.email.value, '@')
    ensures user.email.None? || BeforeFirst(user.email.value, '@') == "" ==> r == "user_" + Prefix(user.id, 8)
    ensures r != ""
  {
    if user.email.Some? && BeforeFirst(user.email.value, '@') != "" then BeforeFirst(user.email.value, '@')
    else "user_" + Prefix(user.id, 8)
  }

  /** The profile table once the user's profile is ensured: unchanged when a row exists,
      otherwise with a row carrying the fallback name and an unused change. */
  function WithProfile(ps: seq<Profile>, user: AuthUser): (r: seq<Profile>)
    ensures FindProfile(r, user.id).Some?
    ensures FindProfile(ps, user.id).Some? ==> r == ps
    ensures FindProfile(ps, user.id).None? ==> r == ps + [Profile(user.id, FallbackUsername(user), false)]
  {
    if FindProfile(ps, user.id).Some? then ps
    else
      var r := ps + [Profile(user.id, FallbackUsername(user), false)];
      assert r[|ps|].id == user.id;
      r
  }

  lemma WithProfileKeepsIds(ps: seq<Profile>, user: AuthUser)
    requires UniqueProfileIds(ps)
    ensures UniqueProfileIds(WithProfile(ps, user))
  {
  }

  /** The sanitised file name `${Date.now()}.${file.name.split('.').pop()}`. */
  function StoredFileName(now: int, fileName: string): string {
    IntToString(now) + "." + AfterLast(fileName, '.')
  }

  /** `${user.id}/${sanitizedFileName}`. */
  function ImagePath(userId: string, now: int, fileName: string): string {
    userId + "/" + StoredFileName(now, fileName)
  }

  /** The profile step of createPost: insert the fallback profile when the user has none.
      Yields false when that insert fails. */
  method EnsureProfile(db: Db, user: AuthUser, fault: bool) returns (ok: bool)
    requires db.Valid()
    modifies db`profiles
    ensures db.Valid() && db.posts == old(db.posts) && db.caller == old(db.caller)
    ensures ok <==> !(FindProfile(old(db.profiles), user.id).None? && fault)
    ensures db.profiles == if ok then WithProfile(old(db.profiles), user) else old(db.profiles)
  {
    if FindProfile(db.profiles, user.id).Some? {
      return true;
    }
    if fault {
      return false;
    }
    WithProfileKeepsIds(db.profiles, user);
    db.profiles := WithProfile(db.profiles, user);
    ok := true;
  }

  /** The image URL stored with the post when a file is attached: `getPublicUrl(path)`,
      the bucket's public base URL followed by the upload path. */
  function ImageUrl(userId: string, now: int, file: Option<File>, publicBase: string): (r: Option<string>)
    ensures r.Some? <==> file.Some?
    ensures file.Some? ==> r.value == publicBase + ImagePath(userId, now, file.value.name)
  {
    if file.Some? then Some(publicBase + ImagePath(userId, now, file.value.name)) else None
  }

  /** What the steps after the profile step answer: the upload fails only when a file is
      attached, then the insert may fail, and otherwise the new row is returned. */
  function InsertOutcome(userId: string, content: string, file: Option<File>, now: int, newId: string, createdAt: int,
                         publicBase: string, uploadFault: bool, insertFault: bool): Result<Post> {
    if file.Some? && uploadFault then Failure(UploadFailed)
    else if insertFault then Failure(InsertFailed)
    else Success(Post(newId, userId, Trim(content), ImageUrl(userId, now, file, publicBase), createdAt))
  }

  /** The steps of createPost after the profile step: upload the file, if any, then insert
      the row. */
  method UploadAndInsert(db: Db, userId: string, content: string, file: Option<File>, now: int, newId: string,
                         createdAt: int, publicBase: string, uploadFault: bool, insertFault: bool)
    returns (r: Result<Post>)
    modifies db`posts
    ensures r == InsertOutcome(userId, content, file, now, newId, createdAt, publicBase, uploadFault, insertFault)
    ensures r.Failure? ==> db.posts == old(db.posts)
    ensures r.Success? ==> db.posts == old(db.posts) + [r.value]
  {
    r := InsertOutcome(userId, content, file, now, newId, createdAt, publicBase, uploadFault, insertFault);
    if r.Success? {
      db.posts := db.posts + [r.value];
    }
  }

  /** createPost from the profile step on, for the signed-in `user`. */
  method CreateAs(db: Db, user: AuthUser, content: string, file: Option<File>, now: int, newId: string, createdAt: int,
                  publicBase: string, profileFault: bool, uploadFault: bool, insertFault: bool)
    returns (r: Result<Post>)
    requires db.Valid()
    modifies db`profiles, db`posts
    ensures db.Valid()
    ensures FindProfile(old(db.profiles), user.id).None? && profileFault ==>
      r == Failure(ProfileFailed) && db.profiles == old(db.profiles)
    ensures !(FindProfile(old(db.profiles), user.id).None? && profileFault) ==>
      db.profiles == WithProfile(old(db.profiles), user)
      && r == InsertOutcome(user.id, content, file, now, newId, createdAt, publicBase, uploadFault, insertFault)
    ensures r.Failure? ==> db.posts == old(db.posts)
    ensures r.Success? ==> db.posts == old(db.posts) + [r.value]
  {
    var profileOk := EnsureProfile(db, user, profileFault);
    if !profileOk {
      return Failure(ProfileFailed);
    }
    ghost var profiles, requests := db.profiles, db.friendRequests;
    r := UploadAndInsert(db, user.id, content, file, now, newId, createdAt, publicBase, uploadFault, insertFault);
    assert db.profiles == profiles && db.friendRequests == requests;
  }

  method CreatePost(db: Db, content: string, file: Option<File>, now: int, newId: string, createdAt: int,
                    publicBase: string, profileFault: bool, uploadFault: bool, insertFault: bool)
    returns (r: Result<Post>)
    requires db.Valid()
    modifies db`profiles, db`posts
    ensures db.Valid()
    ensures InputError(content, file).Some? ==>
      r == Failure(InputError(content, file).value) && db.profiles == old(db.profiles)
    ensures InputError(content, file).None? && db.caller.None? ==>
      r == Failure(NotAuthenticated) && db.profiles == old(db.profiles)
    ensures InputError(content, file).None? && db.caller.Some? &&
            FindProfile(old(db.profiles), db.caller.value.id).None? && profileFault ==>
      r == Failure(ProfileFailed) && db.profiles == old(db.profiles)
    ensures InputError(content, file).None? && db.caller.Some? &&
            !(FindProfile(old(db.profiles), db.caller.value.id).None? && profileFault) ==>
      db.profiles == WithProfile(old(db.profiles), db.caller.value)
      && r == InsertOutcome(db.caller.value.id, content, file, now, newId, createdAt, publicBase, uploadFault, insertFault)
    ensures r.Failure? ==> db.posts == old(db.posts)
    ensures r.Success? ==> db.posts == old(db.posts) + [r.value]
  {
    var inputError := InputError(content, file);
    if inputError.Some? {
      return Failure(inputError.value);
    }
    if db.caller.None? {
      return Failure(NotAuthenticated);
    }
    r := CreateAs(db, db.caller.value, content, file, now, newId, createdAt, publicBase, profileFault, uploadFault, insertFault);
  }

  method DeletePost(db: Db, postId: string, fault: bool) returns (r: Outcome)
    modifies db`posts
    ensures postId == "" ==> r == Err(InvalidPostId)
    ensures postId != "" && db.caller.None? ==> r == Err(NotAuthenticated)
    ensures postId != "" && db.caller.Some? ==> r == if fault then Err(DeleteFailed) else Ok
    ensures r.Err? ==> db.posts == old(db.posts)
    ensures r.Ok? ==> (db.caller.Some? && db.posts == DeleteOwnedPost(old(db.posts), postId, db.caller.value.id))
  {
    if postId == "" {
      return Err(InvalidPostId);
    }
    if db.caller.None? {
      return Err(NotAuthenticated);
    }
    if fault {
      return Err(DeleteFailed);
    }
    db.posts := DeleteOwnedPost(db.posts, postId, db.caller.value.id);
    r := Ok;
  }

  // Properties of the helpers.

  /** The fallback name is the part of the e-mail address before the `@`. */
  lemma FallbackFromEmail(id: string, local: string, domain: string)
    requires local != "" && '@' !in local
    ensures FallbackUsername(AuthUser(id, Some(local + "@" + domain))) == local
  {
    BeforeFirstOf(local, '@', domain);
  }

  /** Without a usable e-mail the fallback is `user_` and the first eight characters of the id. */
  lemma FallbackFromId(id: string, domain: string)
    ensures FallbackUsername(AuthUser(id, None)) == "user_" + Prefix(id, 8)
    ensures FallbackUsername(AuthUser(id, Some("@" + domain))) == "user_" + Prefix(id, 8)
  {
    BeforeFirstOf("", '@', domain);
  }

  /** The profile created on first post does not go through the username rules: an address
      like "a.b@example.com" yields the name "a.b", which those rules reject. */
  lemma FallbackBypassesUsernameRules(id: string, first: string, last: string, domain: string)
    requires first != "" && '@' !in first + "." + last
    ensures var name := FallbackUsername(AuthUser(id, Some(first + "." + last + "@" + domain)));
      name == first + "." + last && !MatchesWordPattern(name)
  {
    var local := first + "." + last;
    BeforeFirstOf(local, '@', domain);
    assert local[|first|] == '.' && !IsWordChar(local[|first|]);
  }

  /** Every image goes to the folder named after its uploader. */
  lemma ImageInUploaderFolder(userId: string, now: int, fileName: string)
    ensures var path := ImagePath(userId, now, fileName);
      |path| > |userId| && path[..|userId| + 1] == userId + "/"
  {
  }

  /** The stored name keeps only the text after the file name's last dot. */
  lemma ImageExtension(now: int, base: string, extension: string)
    requires '.' !in extension
    ensures StoredFileName(now, base + "." + extension) == IntToString(now) + "." + extension
  {
    AfterLastOf(base, '.', extension);
  }

  /** A file name without a dot is kept whole after the timestamp. */
  lemma ImageWithoutExtension(now: int, fileName: string)
    requires '.' !in fileName
    ensures StoredFileName(now, fileName) == IntToString(now) + "." + fileName
  {
    AfterLastWhole(fileName, '.');
  }

  /** Deleting succeeds on a post the caller does not own and removes nothing. */
  lemma DeleteOthersPostIsNoOp(ps: seq<Post>, postId: string, userId: string)
    requires forall p :: p in ps && p.id == postId ==> p.userId != userId
    ensures DeleteOwnedPost(ps, postId, userId) == ps
  {
    FilterKeepsAll(ps, (p: Post) => !(p.id == postId && p.userId == userId));
  }

  /** Deleting one's own post removes it and keeps every other post. */
  lemma DeleteOwnPost(ps: seq<Post>, k: nat)
    requires k < |ps|
    ensures var r := DeleteOwnedPost(ps, ps[k].id, ps[k].userId);
      ps[k] !in r && forall p :: p in ps && p.id != ps[k].id ==> p in r
  {
  }
}
