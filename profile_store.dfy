/**
 * The admin profile store (admin/src/stores/profile.ts): which user a call
 * acts on, whether a save updates or inserts the row, the avatar paths it
 * builds and takes apart, and what each action leaves in `profile` and
 * `loading` and reports back. Every backend answer is a parameter.
 */
module ProfileStore {
  import opened Wrappers
  import opened Strings

  const UserIdRequired := "User ID is required"
  const NoAvatar := "No avatar to delete"
  /** The PostgREST code of a `.single()` query that found no row. */
  const NotFoundCode := "PGRST116"

  /** A row of the `profiles` table; optional columns are `Option`s. */
  datatype Profile = Profile(
    id: string, username: Option<string>, avatarUrl: Option<string>, bio: Option<string>,
    createdAt: string, updatedAt: string)

  /** A database error, which carries a code and a message. */
  datatype PgError = PgError(code: string, message: string)

  /** A storage error, which carries a message. */
  datatype StorageError = StorageError(message: string)

  /** The `{ data, error }` answer of a `.single()` query. */
  datatype Fetch = Fetch(data: Option<Profile>, error: Option<PgError>)

  /** The columns a save sets; `None` is SQL null. */
  type Patch = map<string, Option<string>>

  /** The row write a save issues. */
  datatype Write = UpdateRow(id: string, fields: Patch) | InsertRow(fields: Patch)

  /** The `error` field of a reply: `null`, a string, or `undefined`. */
  datatype JsError = NoError | Message(text: string) | Undefined

  /** Whether a caller's `if (error)` sees a failure. */
  predicate Truthy(e: JsError) {
    e.Message? && e.text != ""
  }

  /** The `{ data, error }` object an action returns. */
  datatype Reply<T> = Reply(data: Option<T>, error: JsError)

  /** What a `throw` hands to the `catch`: an error object, or a bare string. */
  datatype Thrown = ThrownError(message: string) | ThrownString(text: string)

  /** `error.message` in a `catch`: a bare string has no `message` property. */
  function Caught(t: Thrown): (e: JsError)
    ensures Truthy(e) ==> t.ThrownError?
    ensures t.ThrownError? ==> e == Message(t.message)
    ensures t.ThrownString? ==> e == Undefined
  {
    match t
    case ThrownError(m) => Message(m)
    case ThrownString(_) => Undefined
  }

  /** `userId || profile.value?.id`, kept only when truthy. */
  function TargetId(userId: Option<string>, profile: Option<Profile>): (r: Option<string>)
    ensures r.Some? ==> r.value != ""
    ensures r.Some? ==> r == userId || (profile.Some? && r.value == profile.value.id)
    ensures userId.Some? && userId.value != "" ==> r == userId
    ensures r.None? <==>
      (userId.None? || userId.value == "") && (profile.None? || profile.value.id == "")
  {
    if userId.Some? && userId.value != "" then userId
    else if profile.Some? && profile.value.id != "" then Some(profile.value.id)
    else None
  }

  /** The row is updated, not inserted, when it was found and the lookup did not report "no row". */
  function ShouldUpdate(existing: Option<Profile>, checkError: Option<PgError>): (b: bool)
    ensures b <==> existing.Some? && !(checkError.Some? && checkError.value.code == NotFoundCode)
  {
    existing.Some? && (checkError.None? || checkError.value.code != NotFoundCode)
  }

  /**
   * The write for `updates`: an update of the target row stamping
   * `updated_at`, or an insert of `{ id, ...updates, created_at, updated_at }`
   * (a later key of the literal wins, as with object spread).
   */
  function WriteFor(target: string, updates: Patch, existing: bool, createdAt: string, updatedAt: string): (w: Write)
    ensures existing <==> w.UpdateRow?
    ensures w.UpdateRow? ==> w.id == target
    ensures "updated_at" in w.fields && w.fields["updated_at"] == Some(updatedAt)
    ensures w.InsertRow? ==> "created_at" in w.fields && w.fields["created_at"] == Some(createdAt)
    ensures w.InsertRow? ==>
      "id" in w.fields && w.fields["id"] == (if "id" in updates then updates["id"] else Some(target))
    ensures forall k :: k in updates && k != "updated_at" && (w.UpdateRow? || k != "created_at") ==>
      k in w.fields && w.fields[k] == updates[k]
    ensures w.fields.Keys == updates.Keys + {"updated_at"} + (if w.InsertRow? then {"id", "created_at"} else {})
  {
    if existing then UpdateRow(target, updates["updated_at" := Some(updatedAt)])
    else InsertRow((map["id" := Some(target)] + updates)["created_at" := Some(createdAt)]["updated_at" := Some(updatedAt)])
  }

  /** The reply of a save that reached the write, given the write's answer. */
  function WriteReply(written: Fetch): (r: Reply<Profile>)
    ensures written.error.Some? ==> r == Reply(None, Message(written.error.value.message))
    ensures written.error.None? ==> r == Reply(written.data, NoError)
  {
    if written.error.Some? then Reply(None, Caught(ThrownError(written.error.value.message)))
    else Reply(written.data, NoError)
  }

  /** The reply of `updateProfile`: the id check, then the write. */
  function UpdateReply(target: Option<string>, written: Fetch): (r: Reply<Profile>)
    ensures target.None? ==> r == Reply(None, Message(UserIdRequired)) && Truthy(r.error)
    ensures r.data.Some? ==> target.Some? && written.error.None? && r.data == written.data
    ensures r.error == NoError <==> target.Some? && written.error.None?
  {
    if target.None? then Reply(None, Message(UserIdRequired)) else WriteReply(written)
  }

  /** The local profile after a reply: replaced by the reply's data, if any. */
  function Adopted(p: Option<Profile>, r: Reply<Profile>): (q: Option<Profile>)
    ensures r.data.Some? ==> q == r.data
    ensures r.data.None? ==> q == p
  {
    if r.data.Some? then r.data else p
  }

  /** What `loadProfile` leaves in `profile`. */
  function Loaded(fetched: Fetch): (p: Option<Profile>)
    ensures fetched.error.Some? && fetched.error.value.code != NotFoundCode ==> p == None
    ensures fetched.error.None? || fetched.error.value.code == NotFoundCode ==> p == fetched.data
  {
    if fetched.error.Some? && fetched.error.value.code != NotFoundCode then None else fetched.data
  }

  /** Whether the profile has an avatar URL the store acts on. */
  predicate HasAvatar(p: Option<Profile>)
    ensures HasAvatar(p) <==> p.Some? && p.value.avatarUrl.Some? && Truthy(Message(p.value.avatarUrl.value))
  {
    p.Some? && p.value.avatarUrl.Some? && p.value.avatarUrl.value != ""
  }

  /** `file.name.split('.').pop()`: the text after the last dot, or the whole name. */
  function FileExt(name: string): (e: string)
    ensures '.' !in e
    ensures '.' !in name ==> e == name
  {
    if '.' in name then LastSegment(name, '.')
    else LastSegmentWhole(name, '.'); name
  }

  /** The extension of a dotted name is what follows its last dot. */
  lemma ExtOfDottedName(base: string, ext: string)
    requires '.' !in ext
    ensures FileExt(base + "." + ext) == ext
  {
    LastSegmentAfter(base, '.', ext);
  }

  /** `${id}-${Date.now()}.${ext}`. */
  function AvatarFileName(id: string, nowMs: nat, name: string): (f: string)
    ensures FileExt(f) == FileExt(name)
    ensures |f| > |id| && f[..|id| + 1] == id + "-"
  {
    ExtOfDottedName(id + "-" + DecimalString(nowMs), FileExt(name));
    id + "-" + DecimalString(nowMs) + "." + FileExt(name)
  }

  /** `${id}/${fileName}`: the storage path of a new avatar. */
  function AvatarPath(id: string, nowMs: nat, name: string): (p: string)
    ensures |p| > |id| && p[..|id| + 1] == id + "/"
  {
    id + "/" + AvatarFileName(id, nowMs, name)
  }

  /** `avatar_url.split('/').slice(-2).join('/')`: the storage path inside a public URL. */
  function OldAvatarPath(url: string): (p: string)
    ensures '/' !in url ==> p == url
  {
    LastTwoSegments(url, '/')
  }

  /** A URL with a single slash, `b1/b2`, is its own old path. */
  lemma OldAvatarPathOne(b1: string, b2: string)
    requires '/' !in b1 && '/' !in b2
    ensures OldAvatarPath(b1 + "/" + b2) == b1 + "/" + b2
  {
    LastTwoSegmentsOne(b1, '/', b2);
  }

  lemma NoSlashInFileName(id: string, nowMs: nat, name: string)
    requires '/' !in id && '/' !in name
    ensures '/' !in AvatarFileName(id, nowMs, name)
  {
    LastSegmentKeepsOut(name, '.', '/');
  }

  /** A new avatar lives in the folder named after its user, and keeps the upload's extension. */
  lemma AvatarPathParts(id: string, nowMs: nat, name: string)
    requires '/' !in id && '/' !in name
    ensures Split(AvatarPath(id, nowMs, name), '/') == [id, AvatarFileName(id, nowMs, name)]
    ensures FileExt(AvatarFileName(id, nowMs, name)) == FileExt(name)
  {
    var f := AvatarFileName(id, nowMs, name);
    NoSlashInFileName(id, nowMs, name);
    SplitAround(id, '/', f);
    SplitNoSeparator(id, '/');
    SplitNoSeparator(f, '/');
    ExtOfDottedName(id + "-" + DecimalString(nowMs), FileExt(name));
  }

  /**
   * The path the store deletes as the old avatar, taken from any public
   * URL ending in `/` and the path it uploaded, is the uploaded path.
   */
  lemma OldPathOfNewAvatar(prefix: string, id: string, nowMs: nat, name: string)
    requires '/' !in id && '/' !in name
    ensures OldAvatarPath(prefix + "/" + AvatarPath(id, nowMs, name)) == AvatarPath(id, nowMs, name)
  {
    var f := AvatarFileName(id, nowMs, name);
    NoSlashInFileName(id, nowMs, name);
    assert prefix + "/" + AvatarPath(id, nowMs, name) == prefix + ['/'] + id + ['/'] + f;
    LastTwoSegmentsAfter(prefix, '/', id, f);
  }

  /**
   * The reply of `uploadAvatar` once the file is stored: a failed profile
   * save is re-thrown as the bare error string, so the caller receives
   * `undefined` as the error.
   */
  function UploadReply(saved: Reply<Profile>, publicUrl: string): (r: Reply<string>)
    ensures r.data.Some? <==> !Truthy(saved.error)
    ensures r.data.Some? ==> r.data.value == publicUrl && r.error == NoError
    ensures !Truthy(r.error)
  {
    if Truthy(saved.error) then Reply(None, Caught(ThrownString(saved.error.text)))
    else Reply(Some(publicUrl), NoError)
  }

  /** The error `deleteAvatar` reports once the file is removed, masked the same way. */
  function DeleteReply(saved: Reply<Profile>): (e: JsError)
    ensures e == NoError <==> !Truthy(saved.error)
    ensures !Truthy(e)
  {
    if Truthy(saved.error) then Caught(ThrownString(saved.error.text)) else NoError
  }

  /**
   * A failed profile save after a stored upload is reported with neither
   * data nor a truthy error, so a caller testing `error` takes it for
   * success.
   */
  lemma FailedSaveLooksLikeSuccess(target: string, failure: PgError, publicUrl: string)
    requires target != "" && failure.message != ""
    ensures var r := UploadReply(UpdateReply(Some(target), Fetch(None, Some(failure))), publicUrl);
      r.data == None && !Truthy(r.error) && r.error == Undefined
  {
  }

  /** The store's state: the loaded profile and the busy flag. */
  class Store {
    var profile: Option<Profile>
    var loading: bool

    constructor ()
      ensures profile == None && !loading
    {
      profile := None;
      loading := false;
    }

    /** `loadProfile(userId)`, given the lookup's answer. */
    method LoadProfile(userId: string, fetched: Fetch)
      modifies this
      ensures profile == Loaded(fetched)
      ensures !loading
    {
      loading := true;
      if fetched.error.Some? && fetched.error.value.code != NotFoundCode {
        profile := None;
      } else {
        profile := fetched.data;
      }
      loading := false;
    }

    /**
     * `updateProfile(updates, userId)`, given the answers of the lookup and
     * of the write; `write` is the write issued, if any.
     */
    method UpdateProfile(updates: Patch, userId: Option<string>, check: Fetch, written: Fetch,
                         createdAt: string, updatedAt: string)
      returns (reply: Reply<Profile>, write: Option<Write>)
      modifies this
      ensures reply == UpdateReply(TargetId(userId, old(profile)), written)
      ensures profile == Adopted(old(profile), reply)
      ensures TargetId(userId, old(profile)).None? ==> write == None && loading == old(loading)
      ensures TargetId(userId, old(profile)).Some? ==> !loading
      ensures TargetId(userId, old(profile)).Some? ==>
        write == Some(WriteFor(TargetId(userId, old(profile)).value, updates,
                               ShouldUpdate(check.data, check.error), createdAt, updatedAt))
    {
      var target := TargetId(userId, profile);
      if target.None? {
        reply, write := Reply(None, Message(UserIdRequired)), None;
        return;
      }
      loading := true;
      write := Some(WriteFor(target.value, updates, ShouldUpdate(check.data, check.error), createdAt, updatedAt));
      if written.error.Some? {
        reply := Reply(None, Caught(ThrownError(written.error.value.message)));
      } else {
        reply := Reply(written.data, NoError);
        if reply.data.Some? {
          profile := reply.data;
        }
      }
      loading := false;
    }

    /**
     * `uploadAvatar(file, userId)`, given the storage and database answers;
     * `removed` is the old path it asks storage to delete, `uploaded` the
     * path it uploads to, `write` the profile write.
     */
    method UploadAvatar(fileName: string, userId: Option<string>, nowMs: nat,
                        uploadError: Option<StorageError>, publicUrl: string,
                        check: Fetch, written: Fetch, createdAt: string, updatedAt: string)
      returns (reply: Reply<string>, removed: Option<string>, uploaded: Option<string>, write: Option<Write>)
      modifies this
      ensures TargetId(userId, old(profile)).None? ==>
        reply == Reply(None, Message(UserIdRequired)) && removed == None && uploaded == None &&
        write == None && profile == old(profile) && loading == old(loading)
      ensures TargetId(userId, old(profile)).Some? ==> !loading
      ensures TargetId(userId, old(profile)).Some? ==>
        uploaded == Some(AvatarPath(TargetId(userId, old(profile)).value, nowMs, fileName))
      ensures TargetId(userId, old(profile)).Some? ==>
        removed == (if HasAvatar(old(profile)) then Some(OldAvatarPath(old(profile).value.avatarUrl.value)) else None)
      ensures TargetId(userId, old(profile)).Some? && uploadError.Some? ==>
        reply == Reply(None, Message(uploadError.value.message)) && write == None && profile == old(profile)
      ensures TargetId(userId, old(profile)).Some? && uploadError.None? ==>
        write == Some(WriteFor(TargetId(userId, old(profile)).value, map["avatar_url" := Some(publicUrl)],
                               ShouldUpdate(check.data, check.error), createdAt, updatedAt)) &&
        profile == Adopted(old(profile), WriteReply(written)) &&
        reply == UploadReply(WriteReply(written), publicUrl)
    {
      var target := TargetId(userId, profile);
      if target.None? {
        reply, removed, uploaded, write := Reply(None, Message(UserIdRequired)), None, None, None;
        return;
      }
      loading := true;
      var path := AvatarPath(target.value, nowMs, fileName);
      removed := if HasAvatar(profile) then Some(OldAvatarPath(profile.value.avatarUrl.value)) else None;
      uploaded := Some(path);
      if uploadError.Some? {
        reply, write := Reply(None, Caught(ThrownError(uploadError.value.message))), None;
        loading := false;
        return;
      }
      var saved;
      saved, write := UpdateProfile(map["avatar_url" := Some(publicUrl)], target, check, written, createdAt, updatedAt);
      if Truthy(saved.error) {
        reply := Reply(None, Caught(ThrownString(saved.error.text)));
      } else {
        reply := Reply(Some(publicUrl), NoError);
      }
      loading := false;
    }

    /**
     * `deleteAvatar()`, given the storage and database answers; `removed` is
     * the path it asks storage to delete, `write` the profile write.
     */
    method DeleteAvatar(deleteError: Option<StorageError>, check: Fetch, written: Fetch,
                        createdAt: string, updatedAt: string)
      returns (error: JsError, removed: Option<string>, write: Option<Write>)
      modifies this
      ensures !HasAvatar(old(profile)) ==>
        error == Message(NoAvatar) && removed == None && write == None &&
        profile == old(profile) && loading == old(loading)
      ensures HasAvatar(old(profile)) ==> !loading
      ensures HasAvatar(old(profile)) ==> removed == Some(OldAvatarPath(old(profile).value.avatarUrl.value))
      ensures HasAvatar(old(profile)) && deleteError.Some? ==>
        error == Message(deleteError.value.message) && write == None && profile == old(profile)
      ensures HasAvatar(old(profile)) && deleteError.None? ==>
        var target := TargetId(None, old(profile));
        var saved := UpdateReply(target, written);
        error == DeleteReply(saved) && profile == Adopted(old(profile), saved) &&
        write == (if target.None? then None
                  else Some(WriteFor(target.value, map["avatar_url" := None],
                                     ShouldUpdate(check.data, check.error), createdAt, updatedAt)))
    {
      if !HasAvatar(profile) {
        error, removed, write := Message(NoAvatar), None, None;
        return;
      }
      loading := true;
      var path := OldAvatarPath(profile.value.avatarUrl.value);
      removed := Some(path);
      if deleteError.Some? {
        error, write := Caught(ThrownError(deleteError.value.message)), None;
        loading := false;
        return;
      }
      var saved;
      saved, write := UpdateProfile(map["avatar_url" := None], None, check, written, createdAt, updatedAt);
      if Truthy(saved.error) {
        error := Caught(ThrownString(saved.error.text));
      } else {
        error := NoError;
      }
      loading := false;
    }

    /** `reset()`. */
    method Reset()
      modifies this
      ensures profile == None && loading == old(loading)
    {
      profile := None;
    }
  }
}
