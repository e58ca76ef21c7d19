/**
 * The blog's avatar upload (`uploadAvatar` in blog/src/lib/avatar.ts): the
 * checks it makes before uploading, the storage path and content type it
 * uploads with, how it words an upload failure, and what it writes to the
 * user's metadata. The storage and auth answers are parameters; a thrown
 * value is a rejection, with `None` standing for `undefined`.
 */
module BlogAvatar {
  import opened Wrappers
  import opened Strings

  /** 5 MiB, the largest file accepted. */
  const MaxSize := 5 * 1024 * 1024

  const NoFile := "未选择文件"
  const NoUser := "未登录或用户信息缺失"
  const TooLarge := "文件过大，最大 5MB"
  const BucketMissing := "Storage bucket 不存在或名称错误（应为 avatars）"
  const NoPermission := "无权限上传，请确认已登录且 Storage 策略允许 authenticated 写入"
  const NoUrl := "获取文件地址失败，请检查 bucket 公共读取权限"
  const DefaultExt := "png"
  const DefaultType := "image/png"

  /** The parts of a `File` the upload looks at. */
  datatype AvatarFile = AvatarFile(name: string, size: nat, mimeType: string)

  /** The storage upload `uploadAvatar` issues. */
  datatype Upload = Upload(path: string, contentType: string)

  /** How the returned promise settles. */
  datatype Outcome = Resolved(url: string) | Rejected(reason: Option<string>)

  /** One run: the upload issued, the URL written to the metadata, and the outcome. */
  datatype Run = Run(upload: Option<Upload>, metadata: Option<string>, outcome: Outcome)

  /** The message of the first check that fails, in the order the function makes them. */
  function Check(file: Option<AvatarFile>, userId: string): (r: Option<string>)
    ensures file.None? ==> r == Some(NoFile)
    ensures file.Some? && userId == "" ==> r == Some(NoUser)
    ensures file.Some? && userId != "" ==> (r == Some(TooLarge) <==> file.value.size > MaxSize)
    ensures r.None? <==> file.Some? && userId != "" && file.value.size <= MaxSize
  {
    if file.None? then Some(NoFile)
    else if userId == "" then Some(NoUser)
    else if file.value.size > MaxSize then Some(TooLarge)
    else None
  }

  /** `file.name.split('.').pop() || 'png'`. */
  function Ext(name: string): (e: string)
    ensures e != "" && '.' !in e
    ensures e != LastSegment(name, '.') ==> e == DefaultExt && LastSegment(name, '.') == ""
  {
    var last := LastSegment(name, '.');
    if last != "" then last else DefaultExt
  }

  /** A name with a non-empty extension keeps it; one ending in a dot gets "png". */
  lemma ExtOfName(base: string, ext: string)
    requires '.' !in ext
    ensures Ext(base + "." + ext) == if ext == "" then DefaultExt else ext
  {
    LastSegmentAfter(base, '.', ext);
  }

  /** `avatars/${userId}/${Date.now()}.${fileExt}`. */
  function UploadPath(userId: string, nowMs: nat, name: string): (p: string)
    ensures |p| > 9 + |userId| && p[..8] == "avatars/" && p[8..9 + |userId|] == userId + "/"
  {
    "avatars/" + userId + "/" + DecimalString(nowMs) + "." + Ext(name)
  }

  /** The path is the user's folder under `avatars`, holding a file named by the time. */
  lemma UploadPathParts(userId: string, nowMs: nat, name: string)
    requires '/' !in userId && '/' !in name
    ensures Split(UploadPath(userId, nowMs, name), '/') ==
      ["avatars", userId, DecimalString(nowMs) + "." + Ext(name)]
  {
    var f := DecimalString(nowMs) + "." + Ext(name);
    LastSegmentKeepsOut(name, '.', '/');
    assert '/' !in f;
    var a := "avatars";
    assert UploadPath(userId, nowMs, name) == a + ['/'] + (userId + ['/'] + f);
    SplitAround(a, '/', userId + ['/'] + f);
    SplitAround(userId, '/', f);
    assert '/' !in a;
    SplitNoSeparator(a, '/');
    SplitNoSeparator(userId, '/');
    SplitNoSeparator(f, '/');
  }

  /** `file.type || 'image/png'`. */
  function ContentType(file: AvatarFile): (t: string)
    ensures t != ""
    ensures file.mimeType != "" ==> t == file.mimeType
  {
    if file.mimeType != "" then file.mimeType else DefaultType
  }

  /**
   * The rejection of a failed upload with the given `message`: a mention
   * of "bucket" (exact case) first, then of "unauthorized" in any ASCII
   * case, and otherwise the message itself.
   */
  function UploadFailure(message: Option<string>): (r: Option<string>)
    ensures Contains(message.GetOr(""), "bucket") ==> r == Some(BucketMissing)
    ensures !Contains(message.GetOr(""), "bucket") && Contains(ToLower(message.GetOr("")), "unauthorized") ==>
      r == Some(NoPermission)
    ensures !Contains(message.GetOr(""), "bucket") && !Contains(ToLower(message.GetOr("")), "unauthorized") ==>
      r == message
  {
    var text := message.GetOr("");
    if Contains(text, "bucket") then Some(BucketMissing)
    else if Contains(ToLower(text), "unauthorized") then Some(NoPermission)
    else message
  }

  /**
   * `uploadAvatar(file, userId)`, given the upload's error message (if
   * it failed), the public URL storage hands back, and the metadata
   * update's error message (if it failed).
   */
  function UploadAvatar(file: Option<AvatarFile>, userId: string, nowMs: nat,
                        uploadFailed: Option<Option<string>>, publicUrl: string,
                        updateFailed: Option<Option<string>>): (r: Run)
    ensures Check(file, userId).Some? ==>
      r == Run(None, None, Rejected(Check(file, userId)))
    ensures Check(file, userId).None? ==>
      r.upload == Some(Upload(UploadPath(userId, nowMs, file.value.name), ContentType(file.value)))
    ensures Check(file, userId).None? && uploadFailed.Some? ==>
      r.metadata == None && r.outcome == Rejected(UploadFailure(uploadFailed.value))
    ensures Check(file, userId).None? && uploadFailed.None? && publicUrl == "" ==>
      r.metadata == None && r.outcome == Rejected(Some(NoUrl))
    ensures Check(file, userId).None? && uploadFailed.None? && publicUrl != "" ==>
      r.metadata == Some(publicUrl) &&
      r.outcome == if updateFailed.Some? then Rejected(updateFailed.value) else Resolved(publicUrl)
    ensures r.outcome.Resolved? ==> r.outcome.url != "" && r.metadata == Some(r.outcome.url)
  {
    var problem := Check(file, userId);
    if problem.Some? then Run(None, None, Rejected(problem))
    else
      var upload := Upload(UploadPath(userId, nowMs, file.value.name), ContentType(file.value));
      if uploadFailed.Some? then Run(Some(upload), None, Rejected(UploadFailure(uploadFailed.value)))
      else if publicUrl == "" then Run(Some(upload), None, Rejected(Some(NoUrl)))
      else if updateFailed.Some? then Run(Some(upload), Some(publicUrl), Rejected(updateFailed.value))
      else Run(Some(upload), Some(publicUrl), Resolved(publicUrl))
  }

  /** A file of exactly 5 MiB is accepted. */
  lemma ExactLimitPasses(name: string, mimeType: string, userId: string)
    requires userId != ""
    ensures Check(Some(AvatarFile(name, MaxSize, mimeType)), userId).None?
    ensures Check(Some(AvatarFile(name, MaxSize + 1, mimeType)), userId) == Some(TooLarge)
  {
  }

  /** The bucket check wins even when the message also mentions an unauthorized access. */
  lemma BucketBeforePermission(message: string)
    requires Contains(message, "bucket") && Contains(ToLower(message), "unauthorized")
    ensures UploadFailure(Some(message)) == Some(BucketMissing)
  {
  }

  /** "Bucket", capitalised, is not the bucket failure: the message is passed on as it is. */
  lemma BucketIsCaseSensitive()
    ensures UploadFailure(Some("Bucket")) == Some("Bucket")
  {
    var b := "Bucket";
    assert !OccursAt(b, "bucket", 0) by { assert b[0..6][0] == 'B'; }
    assert !Contains(ToLower(b), "unauthorized");
  }
}
