/**
 * The skill server actions: `createSkill`, `updateSkill` and `deleteSkill`.
 * A skill has at most one icon, uploaded under `skill-icons/`; updating the
 * icon removes the old object first, deleting the skill removes its icon.
 */
module SkillActions {
  import opened Common
  import opened JsStrings
  import opened Storage
  import opened Remote
  import opened ServerActions

  /** The fields of the skill form: the icon input is `icon_file` on create
      and `new_icon_file` on update; `skillId` is read by update only. */
  datatype SkillForm = SkillForm(name: string, icon: Option<UploadFile>, category: Option<string>)

  const CreatedMessage: string := "Skill created successfully!"
  const UpdatedMessage: string := "Skill updated successfully!"
  const DeletedMessage: string := "Skill deleted successfully!"
  const CreateUploadPrefix: string := "Failed to upload icon: "
  const UpdateUploadPrefix: string := "Failed to upload new icon: "

  // ---------------------------------------------------------------------
  // The icon
  // ---------------------------------------------------------------------

  /** The object path an icon is uploaded to: `skill-icons/<fresh name>.<extension>`. */
  function IconPath(file: UploadFile, attempt: Attempt): string {
    ObjectPath(SkillIconDir, attempt.freshName, file.name)
  }

  /** The icon path that exists after the upload: none when no file was
      supplied or its upload failed. */
  function UploadedIcon(icon: Option<UploadFile>, attempt: Attempt): seq<string> {
    if Supplied(icon) && attempt.error.None? then [IconPath(icon.value, attempt)] else []
  }

  /** The upload request the icon input causes: none without a file. */
  function IconUploadCall(icon: Option<UploadFile>, attempt: Attempt): seq<StorageCall> {
    if Supplied(icon) then [UploadCall(IconPath(icon.value, attempt))] else []
  }

  /** `uploadErrorMsg`: the prefix and the storage message when the upload failed. */
  function UploadWarning(icon: Option<UploadFile>, attempt: Attempt, prefix: string): Option<string> {
    if Supplied(icon) && attempt.error.Some? then Some(prefix + attempt.error.value) else None
  }

  /** The icon URL `createSkill` stores: the public URL of an uploaded icon, or null. */
  function NewIconUrl(base: string, icon: Option<UploadFile>, attempt: Attempt): Option<string> {
    if Supplied(icon) && attempt.error.None? then Some(PublicUrl(base, IconPath(icon.value, attempt))) else None
  }

  /** The icon URL `updateSkill` stores: the new public URL when an icon was
      uploaded, the current one otherwise (also when the upload failed). */
  function UpdatedIconUrl(base: string, current: Option<string>, icon: Option<UploadFile>, attempt: Attempt): Option<string> {
    if Supplied(icon) && attempt.error.None? then Some(PublicUrl(base, IconPath(icon.value, attempt))) else current
  }

  /** A stored icon URL is truthy: present and not empty. */
  predicate Truthy(url: Option<string>) {
    url.Some? && url.value != ""
  }

  /** The paths to remove for a stored icon URL: the storage path of a truthy
      URL, when it is not empty. */
  function IconPaths(url: Option<string>): (paths: seq<string>)
    ensures |paths| <= 1
    ensures forall p :: p in paths ==> p != ""
  {
    if Truthy(url) && StoragePath(url.value) != "" then [StoragePath(url.value)] else []
  }

  /** The storage request that removes `paths`, if there are any. */
  function RemoveCalls(paths: seq<string>): seq<StorageCall> {
    if |paths| > 0 then [RemoveCall(paths)] else []
  }

  /** The bucket after `remove(paths)`, if it was sent. */
  function AfterRemove(bucket: set<string>, paths: seq<string>, removeError: Option<string>): set<string> {
    if |paths| > 0 && removeError.None? then bucket - Elements(paths) else bucket
  }

  /** The old icon `updateSkill` removes: only when a new file is supplied. */
  function ReplacedIcon(current: Option<string>, icon: Option<UploadFile>): seq<string> {
    if Supplied(icon) then IconPaths(current) else []
  }

  /** The bucket after `updateSkill`: the old icon removed, then the new one added. */
  function UpdatedBucket(bucket: set<string>, current: Option<string>, icon: Option<UploadFile>,
                         attempt: Attempt, removeError: Option<string>): set<string> {
    AfterRemove(bucket, ReplacedIcon(current, icon), removeError) + Elements(UploadedIcon(icon, attempt))
  }

  /** The success message, with ` (Warning: …)` appended for an upload error. */
  function WithWarning(base: string, warning: Option<string>): (message: string)
    ensures !Truthy(warning) ==> message == base
    ensures Truthy(warning) ==> |message| > |base| && message[..|base|] == base
  {
    if Truthy(warning) then base + " (Warning: " + warning.value + ")" else base
  }

  /** The icon URL stored for `id`, or none when there is no such row. */
  function StoredIcon(skills: map<string, Skill>, id: string): Option<string> {
    if id in skills then skills[id].iconUrl else None
  }

  /** The row `updateSkill` writes over `current`: name, icon and category
      replaced, the owner kept. */
  function UpdatedSkill(current: Skill, form: SkillForm, iconUrl: Option<string>): Skill {
    current.(name := form.name, iconUrl := iconUrl, category := NullIfEmpty(form.category))
  }

  // ---------------------------------------------------------------------
  // The actions
  // ---------------------------------------------------------------------

  /** The icon upload of both create and update: nothing without a file;
      otherwise the file is uploaded and gives its public URL or a warning. */
  method UploadIcon(db: Backend, icon: Option<UploadFile>, attempt: Attempt, prefix: string)
    returns (url: Option<string>, warning: Option<string>)
    modifies db
    ensures url == NewIconUrl(db.publicBase, icon, attempt)
    ensures warning == UploadWarning(icon, attempt, prefix)
    ensures db.bucket == old(db.bucket) + Elements(UploadedIcon(icon, attempt))
    ensures db.calls == old(db.calls) + IconUploadCall(icon, attempt)
    ensures db.projects == old(db.projects) && db.skills == old(db.skills)
  {
    if !Supplied(icon) {
      assert Elements([]) == {};
      return None, None;
    }
    var path := IconPath(icon.value, attempt);
    db.Upload(path, attempt.error);
    assert Elements([path]) == {path} && Elements([]) == {};
    if attempt.error.Some? {
      return None, Some(prefix + attempt.error.value);
    }
    return Some(PublicUrl(db.publicBase, path)), None;
  }

  /** `createSkill`. */
  method CreateSkill(db: Backend, form: SkillForm, auth: AuthResult, adminId: Option<string>,
                     attempt: Attempt, insert: InsertOutcome)
    returns (resp: Response)
    requires insert.Inserted? ==> insert.id !in db.skills
    modifies db
    ensures !Authorized(auth, adminId) ==> resp == Unauthorized() && unchanged(db)
    ensures db.projects == old(db.projects)
    ensures Authorized(auth, adminId) ==>
      && db.bucket == old(db.bucket) + Elements(UploadedIcon(form.icon, attempt))
      && db.calls == old(db.calls) + IconUploadCall(form.icon, attempt)
    ensures Authorized(auth, adminId) ==>
      var row := Skill(form.name, NewIconUrl(db.publicBase, form.icon, attempt), auth.userId.value,
                       NullIfEmpty(form.category));
      db.skills == (if insert.Inserted? then old(db.skills)[insert.id := row] else old(db.skills))
    ensures Authorized(auth, adminId) ==>
      resp == (if insert.Inserted?
               then Response(true, WithWarning(CreatedMessage, UploadWarning(form.icon, attempt, CreateUploadPrefix)))
               else Response(false, "Failed to create skill: " + insert.message))
  {
    if !Authorized(auth, adminId) {
      return Unauthorized();
    }
    var iconUrl, uploadErrorMsg := UploadIcon(db, form.icon, attempt, CreateUploadPrefix);
    var insertError := db.InsertSkill(Skill(form.name, iconUrl, auth.userId.value, NullIfEmpty(form.category)), insert);
    if insertError.Some? {
      return Response(false, "Failed to create skill: " + insertError.value);
    }
    return Response(true, WithWarning(CreatedMessage, uploadErrorMsg));
  }

  /** `updateSkill`. */
  method UpdateSkill(db: Backend, skillId: string, form: SkillForm, auth: AuthResult, adminId: Option<string>,
                     fetchError: Option<string>, removeError: Option<string>, attempt: Attempt,
                     updateError: Option<string>)
    returns (resp: Response)
    modifies db
    ensures !Authorized(auth, adminId) ==> resp == Unauthorized() && unchanged(db)
    ensures Authorized(auth, adminId) && (fetchError.Some? || skillId !in old(db.skills)) ==>
      resp == Response(false, "Error fetching current skill: " + ErrorText(fetchError, "Skill not found"))
      && unchanged(db)
    ensures Authorized(auth, adminId) && fetchError.None? && skillId in old(db.skills) ==>
      var current := old(db.skills)[skillId];
      var removed := ReplacedIcon(current.iconUrl, form.icon);
      var iconUrl := UpdatedIconUrl(db.publicBase, current.iconUrl, form.icon, attempt);
      && db.bucket == UpdatedBucket(old(db.bucket), current.iconUrl, form.icon, attempt, removeError)
      && db.calls == old(db.calls) + RemoveCalls(removed) + IconUploadCall(form.icon, attempt)
      && db.projects == old(db.projects)
      && db.skills == (if updateError.None? then old(db.skills)[skillId := UpdatedSkill(current, form, iconUrl)]
                       else old(db.skills))
      && resp == (if updateError.None?
                  then Response(true, WithWarning(UpdatedMessage, UploadWarning(form.icon, attempt, UpdateUploadPrefix)))
                  else Response(false, "Failed to update skill: " + updateError.value))
  {
    if !Authorized(auth, adminId) {
      return Unauthorized();
    }
    var current := db.FetchSkill(skillId, fetchError);
    if fetchError.Some? || current.None? {
      return Response(false, "Error fetching current skill: " + ErrorText(fetchError, "Skill not found"));
    }
    var oldUrl := current.value.iconUrl;
    var removed := ReplacedIcon(oldUrl, form.icon);
    if |removed| > 0 {
      // A failed removal is only logged.
      db.Remove(removed, removeError);
    }
    var newUrl, uploadErrorMsg := UploadIcon(db, form.icon, attempt, UpdateUploadPrefix);
    var iconUrl := if newUrl.Some? then newUrl else oldUrl;
    db.UpdateSkill(skillId, UpdatedSkill(current.value, form, iconUrl), updateError);
    if updateError.Some? {
      return Response(false, "Failed to update skill: " + updateError.value);
    }
    return Response(true, WithWarning(UpdatedMessage, uploadErrorMsg));
  }

  /** `deleteSkill`. */
  method DeleteSkill(db: Backend, skillId: string, auth: AuthResult, adminId: Option<string>,
                     fetchError: Option<string>, deleteError: Option<string>, removeError: Option<string>)
    returns (resp: Response)
    modifies db
    ensures !Authorized(auth, adminId) ==> resp == Unauthorized() && unchanged(db)
    ensures Authorized(auth, adminId) && fetchError.Some? ==>
      resp == Response(false, "Error fetching skill: " + fetchError.value) && unchanged(db)
    ensures Authorized(auth, adminId) && fetchError.None? && deleteError.Some? ==>
      resp == Response(false, "Failed to delete skill: " + deleteError.value) && unchanged(db)
    ensures Authorized(auth, adminId) && fetchError.None? && deleteError.None? ==>
      var paths := IconPaths(StoredIcon(old(db.skills), skillId));
      && resp == Response(true, DeletedMessage)
      && db.skills == old(db.skills) - {skillId}
      && db.projects == old(db.projects)
      && db.calls == old(db.calls) + RemoveCalls(paths)
      && db.bucket == AfterRemove(old(db.bucket), paths, removeError)
  {
    if !Authorized(auth, adminId) {
      return Unauthorized();
    }
    var toDelete := db.FetchSkill(skillId, fetchError);
    if fetchError.Some? {
      return Response(false, "Error fetching skill: " + fetchError.value);
    }
    db.DeleteSkill(skillId, deleteError);
    if deleteError.Some? {
      return Response(false, "Failed to delete skill: " + deleteError.value);
    }
    if toDelete.Some? {
      var paths := IconPaths(toDelete.value.iconUrl);
      if |paths| > 0 {
        // A storage error is only logged: the row is already gone.
        db.Remove(paths, removeError);
      }
    }
    return Response(true, DeletedMessage);
  }

  // ---------------------------------------------------------------------
  // Lemmas
  // ---------------------------------------------------------------------

  /** A public URL of the bucket is truthy. */
  lemma PublicUrlTruthy(base: string, path: string)
    ensures Truthy(Some(PublicUrl(base, path)))
  {
    assert |PublicUrl(base, path)| >= |Marker| > 0;
  }

  /** The icon of a stored public URL is exactly the uploaded object, when
      neither the URL base nor the path holds the marker. */
  lemma IconPathsOfPublicUrl(base: string, path: string)
    requires !Contains(base, Marker) && !Contains(path, Marker) && path != ""
    ensures IconPaths(Some(PublicUrl(base, path))) == [path]
  {
    PublicUrlTruthy(base, path);
    StoragePathOfPublicUrl(base, path);
  }

  /** Deleting a skill created with an uploaded icon removes exactly that icon. */
  lemma DeleteRemovesCreatedIcon(base: string, icon: Option<UploadFile>, attempt: Attempt)
    requires !Contains(base, Marker)
    requires Supplied(icon) ==> !Contains(IconPath(icon.value, attempt), Marker)
    ensures IconPaths(NewIconUrl(base, icon, attempt)) == UploadedIcon(icon, attempt)
  {
    if Supplied(icon) && attempt.error.None? {
      IconPathsOfPublicUrl(base, IconPath(icon.value, attempt));
    }
  }

  /** A successful create or update reports a warning exactly when a file was
      supplied and its upload failed, and the warning names the storage error. */
  lemma WarningExactlyOnUploadFailure(base: string, icon: Option<UploadFile>, attempt: Attempt, prefix: string)
    requires prefix != ""
    ensures WithWarning(base, UploadWarning(icon, attempt, prefix)) != base
      <==> Supplied(icon) && attempt.error.Some?
    ensures Supplied(icon) && attempt.error.Some? ==>
      WithWarning(base, UploadWarning(icon, attempt, prefix)) == base + " (Warning: " + prefix + attempt.error.value + ")"
  {
    if Supplied(icon) && attempt.error.Some? {
      assert |prefix + attempt.error.value| > 0;
    }
  }

  /** The stored icon: on create, the new public URL exactly when a file was
      supplied and uploaded, null otherwise; on update the same, except that
      the current URL is kept instead of null. */
  lemma IconSelection(base: string, current: Option<string>, icon: Option<UploadFile>, attempt: Attempt)
    ensures NewIconUrl(base, icon, attempt).Some? <==> Supplied(icon) && attempt.error.None?
    ensures UpdatedIconUrl(base, current, icon, attempt)
      == (if NewIconUrl(base, icon, attempt).Some? then NewIconUrl(base, icon, attempt) else current)
    ensures Supplied(icon) && attempt.error.None? ==>
      StartsWith(NewIconUrl(base, icon, attempt).value, base + Marker + SkillIconDir + "/")
  {
    if Supplied(icon) && attempt.error.None? {
      var path := IconPath(icon.value, attempt);
      var url := PublicUrl(base, path);
      var pre := base + Marker + SkillIconDir + "/";
      assert url == pre + (attempt.freshName + "." + Extension(icon.value.name));
      assert url[..|pre|] == pre;
    }
  }

  /** Without a new file, `updateSkill` touches no object and keeps the icon. */
  lemma UpdateWithoutFileKeepsIcon(base: string, bucket: set<string>, current: Option<string>,
                                   icon: Option<UploadFile>, attempt: Attempt, removeError: Option<string>)
    requires !Supplied(icon)
    ensures UpdatedIconUrl(base, current, icon, attempt) == current
    ensures UpdatedBucket(bucket, current, icon, attempt, removeError) == bucket
    ensures RemoveCalls(ReplacedIcon(current, icon)) + IconUploadCall(icon, attempt) == []
  {
    assert Elements([]) == {};
  }

  /** After a successful `updateSkill` the stored icon lacks its object
      exactly when the old icon was removed and the new upload then failed:
      the row keeps the URL of the object just removed. Assumes the old
      icon's object existed and the paths hold no marker. */
  lemma UpdateIconDangles(base: string, bucket: set<string>, current: Option<string>,
                          icon: Option<UploadFile>, attempt: Attempt, removeError: Option<string>)
    requires !Contains(base, Marker)
    requires Supplied(icon) ==> !Contains(IconPath(icon.value, attempt), Marker)
    requires Elements(IconPaths(current)) <= bucket
    ensures !(Elements(IconPaths(UpdatedIconUrl(base, current, icon, attempt)))
              <= UpdatedBucket(bucket, current, icon, attempt, removeError))
      <==> (Supplied(icon) && |IconPaths(current)| > 0 && removeError.None? && attempt.error.Some?)
  {
    var removed := ReplacedIcon(current, icon);
    var after := AfterRemove(bucket, removed, removeError);
    if Supplied(icon) && attempt.error.None? {
      var path := IconPath(icon.value, attempt);
      IconPathsOfPublicUrl(base, path);
      assert Elements([path]) == {path};
    } else if Supplied(icon) && |IconPaths(current)| > 0 && removeError.None? {
      var p := IconPaths(current)[0];
      assert p in Elements(IconPaths(current));
      assert p !in after;
      assert Elements([]) == {};
    } else {
      assert Elements([]) == {};
      assert after == bucket;
    }
  }

  /** After a failed `updateSkill` the row keeps its old icon URL, whose
      object is gone exactly when a new file was supplied and the old icon's
      removal succeeded, whatever the upload did. Assumes the old icon's
      object existed and the fresh upload path is not the old one. */
  lemma FailedUpdateIconDangles(bucket: set<string>, current: Option<string>,
                                icon: Option<UploadFile>, attempt: Attempt, removeError: Option<string>)
    requires Elements(IconPaths(current)) <= bucket
    requires Supplied(icon) ==> IconPath(icon.value, attempt) !in IconPaths(current)
    ensures !(Elements(IconPaths(current)) <= UpdatedBucket(bucket, current, icon, attempt, removeError))
      <==> (Supplied(icon) && |IconPaths(current)| > 0 && removeError.None?)
  {
    var after := AfterRemove(bucket, ReplacedIcon(current, icon), removeError);
    if Supplied(icon) && |IconPaths(current)| > 0 && removeError.None? {
      var p := IconPaths(current)[0];
      assert p in Elements(IconPaths(current));
      assert p !in after;
      assert p !in Elements(UploadedIcon(icon, attempt));
    } else {
      assert after == bucket;
    }
  }
}
