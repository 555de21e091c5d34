/**
 * The project server actions: `createProject`, `updateProject` and
 * `deleteProject`, with the image upload loop they share, the parsing of the
 * comma-separated technologies field, and the mapping of stored image URLs
 * back to the bucket paths removed on delete.
 */
module ProjectActions {
  import opened Common
  import opened JsStrings
  import opened Storage
  import opened Remote
  import opened ServerActions

  /** The fields of the project form. `projectId` is only read by update. */
  datatype ProjectForm = ProjectForm(
    title: string,
    description: string,
    technologies: string,
    githubUrl: Option<string>,
    liveDemoUrl: Option<string>,
    isPublished: Option<string>,
    images: seq<UploadFile>)

  // ---------------------------------------------------------------------
  // Technologies
  // ---------------------------------------------------------------------

  /** Each piece trimmed, the empty ones dropped, the order kept. */
  function CleanEntries(parts: seq<string>): (entries: seq<string>)
    ensures |entries| <= |parts|
  {
    if |parts| == 0 then []
    else
      var t := Trim(parts[0]);
      (if t != "" then [t] else []) + CleanEntries(parts[1..])
  }

  /** `technologies.split(",").map(t => t.trim()).filter(t => t.length > 0)`. */
  function ParseTechnologies(technologies: string): seq<string> {
    CleanEntries(Split(technologies, ","))
  }

  /** How the edit form pre-fills the field: `technologies.join(", ")`. */
  function JoinTechnologies(technologies: seq<string>): string {
    Join(technologies, ", ")
  }

  /** A checkbox is on exactly when the form sends the value `"on"`. */
  predicate IsChecked(v: Option<string>) {
    v == Some("on")
  }

  // ---------------------------------------------------------------------
  // Image uploads
  // ---------------------------------------------------------------------

  /** The number of files that are not empty, i.e. the uploads attempted. */
  function NonEmptyCount(files: seq<UploadFile>): (n: nat)
    ensures n <= |files|
    decreases |files|
  {
    if |files| == 0 then 0
    else NonEmptyCount(files[..|files| - 1]) + (if files[|files| - 1].size > 0 then 1 else 0)
  }

  /** The object path one file is uploaded to, if its upload succeeded. */
  function UploadedPath(dir: string, file: UploadFile, attempt: Attempt): seq<string> {
    if file.size > 0 && attempt.error.None? then [ObjectPath(dir, attempt.freshName, file.name)] else []
  }

  /** The upload request one file causes: none for an empty file. */
  function UploadCallOf(dir: string, file: UploadFile, attempt: Attempt): seq<StorageCall> {
    if file.size > 0 then [UploadCall(ObjectPath(dir, attempt.freshName, file.name))] else []
  }

  /** The `uploadErrors` entry one file causes: only when its upload failed. */
  function UploadFailure(file: UploadFile, attempt: Attempt): seq<string> {
    if file.size > 0 && attempt.error.Some? then ["Failed to upload " + file.name + ": " + attempt.error.value] else []
  }

  /** The per-file results `each` gives for a list of files and their upload
      attempts, concatenated in the order of the files. */
  function Collect<T>(each: (UploadFile, Attempt) -> seq<T>, files: seq<UploadFile>, attempts: seq<Attempt>): seq<T>
    requires |attempts| == |files|
    decreases |files|
  {
    if |files| == 0 then []
    else
      var n := |files| - 1;
      Collect(each, files[..n], attempts[..n]) + each(files[n], attempts[n])
  }

  /** UploadedPath for the files of user `dir`. */
  function PathOf(dir: string): (UploadFile, Attempt) -> seq<string> {
    (file, attempt) => UploadedPath(dir, file, attempt)
  }

  /** UploadCallOf for the files of user `dir`. */
  function CallOf(dir: string): (UploadFile, Attempt) -> seq<StorageCall> {
    (file, attempt) => UploadCallOf(dir, file, attempt)
  }

  /** The paths of the successful uploads, in the order of the files. */
  function UploadedPaths(dir: string, files: seq<UploadFile>, attempts: seq<Attempt>): seq<string>
    requires |attempts| == |files|
  {
    Collect(PathOf(dir), files, attempts)
  }

  /** The upload requests sent: one per non-empty file. */
  function UploadCalls(dir: string, files: seq<UploadFile>, attempts: seq<Attempt>): seq<StorageCall>
    requires |attempts| == |files|
  {
    Collect(CallOf(dir), files, attempts)
  }

  /** The `uploadErrors` messages: one per non-empty file whose upload failed. */
  function UploadFailures(files: seq<UploadFile>, attempts: seq<Attempt>): seq<string>
    requires |attempts| == |files|
  {
    Collect(UploadFailure, files, attempts)
  }

  /** One more file adds its results at the end. */
  lemma CollectStep<T>(each: (UploadFile, Attempt) -> seq<T>, files: seq<UploadFile>, attempts: seq<Attempt>, i: nat)
    requires |attempts| == |files| && i < |files|
    ensures Collect(each, files[..i + 1], attempts[..i + 1])
      == Collect(each, files[..i], attempts[..i]) + each(files[i], attempts[i])
  {
    assert files[..i + 1][..i] == files[..i] && attempts[..i + 1][..i] == attempts[..i];
  }

  /** The results for the whole list of files. */
  lemma CollectAll<T>(each: (UploadFile, Attempt) -> seq<T>, files: seq<UploadFile>, attempts: seq<Attempt>)
    requires |attempts| == |files|
    ensures Collect(each, files[..|files|], attempts[..|attempts|]) == Collect(each, files, attempts)
  {
    assert files[..|files|] == files && attempts[..|attempts|] == attempts;
  }

  /** The results keep the order of the files: they distribute over concatenation. */
  lemma {:induction false} CollectAppend<T>(each: (UploadFile, Attempt) -> seq<T>,
                                            f: seq<UploadFile>, a: seq<Attempt>, g: seq<UploadFile>, b: seq<Attempt>)
    requires |a| == |f| && |b| == |g|
    ensures Collect(each, f + g, a + b) == Collect(each, f, a) + Collect(each, g, b)
    decreases |g|
  {
    if |g| == 0 {
      assert f + g == f && a + b == a;
    } else {
      var n := |g| - 1;
      assert (f + g)[..|f| + n] == f + g[..n] && (a + b)[..|a| + n] == a + b[..n];
      assert (f + g)[|f| + n] == g[n] && (a + b)[|a| + n] == b[n];
      CollectAppend(each, f, a, g[..n], b[..n]);
      var x, y, z := Collect(each, f, a), Collect(each, g[..n], b[..n]), each(g[n], b[n]);
      assert (x + y) + z == x + (y + z);
    }
  }

  /** One step of the stored URLs: the URLs of one more file's paths go at the end. */
  lemma UrlsStep(base: string, existing: seq<string>, paths: seq<string>, one: seq<string>)
    ensures existing + PublicUrls(base, paths) + PublicUrls(base, one)
         == existing + PublicUrls(base, paths + one)
  {
    PublicUrlsAppend(base, paths, one);
  }

  /** The body of the upload loop for one file: an empty file is skipped;
      otherwise the file is uploaded under `<userId>/<fresh name>.<extension>`
      and gives either its public URL or an upload error message. */
  method UploadOne(db: Backend, file: UploadFile, attempt: Attempt, userId: string)
    returns (imageUrl: seq<string>, uploadError: seq<string>)
    modifies db
    ensures imageUrl == PublicUrls(db.publicBase, UploadedPath(userId, file, attempt))
    ensures uploadError == UploadFailure(file, attempt)
    ensures db.bucket == old(db.bucket) + Elements(UploadedPath(userId, file, attempt))
    ensures db.calls == old(db.calls) + UploadCallOf(userId, file, attempt)
    ensures db.projects == old(db.projects) && db.skills == old(db.skills)
  {
    if file.size == 0 {
      return [], [];
    }
    var path := ObjectPath(userId, attempt.freshName, file.name);
    db.Upload(path, attempt.error);
    if attempt.error.Some? {
      return [], ["Failed to upload " + file.name + ": " + attempt.error.value];
    }
    PublicUrlsCons(db.publicBase, [path]);
    assert [path][1..] == [];
    assert Elements([path]) == {path};
    return [PublicUrl(db.publicBase, path)], [];
  }

  /** The upload loop of both create and update: the public URL of each
      successful upload is appended to `imageUrls`, each failure to
      `uploadErrors`, in the order of the files. */
  method UploadImages(db: Backend, existing: seq<string>, files: seq<UploadFile>, attempts: seq<Attempt>, userId: string)
    returns (imageUrls: seq<string>, uploadErrors: seq<string>)
    requires |attempts| == |files|
    modifies db
    ensures imageUrls == existing + PublicUrls(db.publicBase, UploadedPaths(userId, files, attempts))
    ensures uploadErrors == UploadFailures(files, attempts)
    ensures db.bucket == old(db.bucket) + Elements(UploadedPaths(userId, files, attempts))
    ensures db.calls == old(db.calls) + UploadCalls(userId, files, attempts)
    ensures db.projects == old(db.projects) && db.skills == old(db.skills)
  {
    imageUrls, uploadErrors := existing, [];
    for i := 0 to |files|
      invariant imageUrls == existing + PublicUrls(db.publicBase, UploadedPaths(userId, files[..i], attempts[..i]))
      invariant uploadErrors == UploadFailures(files[..i], attempts[..i])
      invariant db.bucket == old(db.bucket) + Elements(UploadedPaths(userId, files[..i], attempts[..i]))
      invariant db.calls == old(db.calls) + UploadCalls(userId, files[..i], attempts[..i])
      invariant db.projects == old(db.projects) && db.skills == old(db.skills)
    {
      ghost var done := UploadedPaths(userId, files[..i], attempts[..i]);
      ghost var one := UploadedPath(userId, files[i], attempts[i]);
      var imageUrl, uploadError := UploadOne(db, files[i], attempts[i], userId);
      CollectStep(PathOf(userId), files, attempts, i);
      CollectStep(CallOf(userId), files, attempts, i);
      CollectStep(UploadFailure, files, attempts, i);
      UrlsStep(db.publicBase, existing, done, one);
      ElementsAppend(done, one);
      imageUrls, uploadErrors := imageUrls + imageUrl, uploadErrors + uploadError;
    }
    CollectAll(PathOf(userId), files, attempts);
    CollectAll(CallOf(userId), files, attempts);
    CollectAll(UploadFailure, files, attempts);
  }

  // ---------------------------------------------------------------------
  // The actions
  // ---------------------------------------------------------------------

  /** The row `createProject` inserts. */
  function NewProject(form: ProjectForm, imageUrls: seq<string>, userId: string): Project {
    Project(form.title, form.description, ParseTechnologies(form.technologies),
            NullIfEmpty(form.githubUrl), NullIfEmpty(form.liveDemoUrl), Some(imageUrls),
            IsChecked(form.isPublished), userId)
  }

  /** The row `updateProject` writes over `current`: every form column replaced,
      the owner kept. */
  function UpdatedProject(current: Project, form: ProjectForm, imageUrls: seq<string>): Project {
    current.(title := form.title, description := form.description,
             technologies := ParseTechnologies(form.technologies),
             githubUrl := NullIfEmpty(form.githubUrl), liveDemoUrl := NullIfEmpty(form.liveDemoUrl),
             imageUrls := Some(imageUrls), isPublished := IsChecked(form.isPublished))
  }

  /** `current.image_urls || []`. */
  function ExistingUrls(current: Project): seq<string> {
    if current.imageUrls.Some? then current.imageUrls.value else []
  }

  /** The image URLs stored for `id`, or none when there is no such row. */
  function StoredImageUrls(projects: map<string, Project>, id: string): seq<string> {
    if id in projects then ExistingUrls(projects[id]) else []
  }

  /** `createProject`. */
  method CreateProject(db: Backend, form: ProjectForm, auth: AuthResult, adminId: Option<string>,
                       attempts: seq<Attempt>, insert: InsertOutcome)
    returns (resp: Response)
    requires |attempts| == |form.images|
    requires insert.Inserted? ==> insert.id !in db.projects
    modifies db
    ensures !Authorized(auth, adminId) ==> resp == Unauthorized() && unchanged(db)
    ensures db.skills == old(db.skills)
    ensures Authorized(auth, adminId) ==>
      db.bucket == old(db.bucket) + Elements(UploadedPaths(auth.userId.value, form.images, attempts))
    ensures Authorized(auth, adminId) ==>
      db.calls == old(db.calls) + UploadCalls(auth.userId.value, form.images, attempts)
    ensures Authorized(auth, adminId) ==>
      var userId := auth.userId.value;
      var imageUrls := PublicUrls(db.publicBase, UploadedPaths(userId, form.images, attempts));
      db.projects == (if insert.Inserted? then old(db.projects)[insert.id := NewProject(form, imageUrls, userId)]
                      else old(db.projects))
    ensures Authorized(auth, adminId) ==>
      resp == (if insert.Inserted? then Response(true, "Project created successfully!")
               else Response(false, "Failed to create project: " + insert.message))
  {
    if !Authorized(auth, adminId) {
      return Unauthorized();
    }
    var userId := auth.userId.value;
    var imageUrls, uploadErrors := UploadImages(db, [], form.images, attempts, userId);
    assert imageUrls == PublicUrls(db.publicBase, UploadedPaths(userId, form.images, attempts));
    var insertError := db.InsertProject(NewProject(form, imageUrls, userId), insert);
    if insertError.Some? {
      return Response(false, "Failed to create project: " + insertError.value);
    }
    return Response(true, "Project created successfully!");
  }

  /** `updateProject`. */
  method UpdateProject(db: Backend, projectId: string, form: ProjectForm, auth: AuthResult, adminId: Option<string>,
                       fetchError: Option<string>, attempts: seq<Attempt>, updateError: Option<string>)
    returns (resp: Response)
    requires |attempts| == |form.images|
    modifies db
    ensures !Authorized(auth, adminId) ==> resp == Unauthorized() && unchanged(db)
    ensures Authorized(auth, adminId) && (fetchError.Some? || projectId !in old(db.projects)) ==>
      resp == Response(false, "Error fetching project: " + ErrorText(fetchError, "Project not found")) && unchanged(db)
    ensures Authorized(auth, adminId) && fetchError.None? && projectId in old(db.projects) ==>
      var userId := auth.userId.value;
      var current := old(db.projects)[projectId];
      var paths := UploadedPaths(userId, form.images, attempts);
      var imageUrls := ExistingUrls(current) + PublicUrls(db.publicBase, paths);
      && db.bucket == old(db.bucket) + Elements(paths)
      && db.calls == old(db.calls) + UploadCalls(userId, form.images, attempts)
      && db.skills == old(db.skills)
      && db.projects == (if updateError.None?
                         then old(db.projects)[projectId := UpdatedProject(current, form, imageUrls)]
                         else old(db.projects))
      && resp == (if updateError.None? then Response(true, "Project updated successfully!")
                  else Response(false, "Failed to update project: " + updateError.value))
  {
    if !Authorized(auth, adminId) {
      return Unauthorized();
    }
    var userId := auth.userId.value;
    var current := db.FetchProject(projectId, fetchError);
    if fetchError.Some? || current.None? {
      return Response(false, "Error fetching project: " + ErrorText(fetchError, "Project not found"));
    }
    var imageUrls, uploadErrors := UploadImages(db, ExistingUrls(current.value), form.images, attempts, userId);
    db.UpdateProject(projectId, UpdatedProject(current.value, form, imageUrls), updateError);
    if updateError.Some? {
      return Response(false, "Failed to update project: " + updateError.value);
    }
    return Response(true, "Project updated successfully!");
  }

  /** `deleteProject`. */
  method DeleteProject(db: Backend, projectId: string, auth: AuthResult, adminId: Option<string>,
                       fetchError: Option<string>, deleteError: Option<string>, removeError: Option<string>)
    returns (resp: Response)
    modifies db
    ensures !Authorized(auth, adminId) ==> resp == Unauthorized() && unchanged(db)
    ensures Authorized(auth, adminId) && fetchError.Some? ==>
      resp == Response(false, "Error fetching project: " + fetchError.value) && unchanged(db)
    ensures Authorized(auth, adminId) && fetchError.None? && deleteError.Some? ==>
      resp == Response(false, "Failed to delete project: " + deleteError.value) && unchanged(db)
    ensures Authorized(auth, adminId) && fetchError.None? && deleteError.None? ==>
      var paths := StoragePaths(StoredImageUrls(old(db.projects), projectId));
      && resp == Response(true, "Project deleted successfully!")
      && db.projects == old(db.projects) - {projectId}
      && db.skills == old(db.skills)
      && db.calls == old(db.calls) + (if |paths| > 0 then [RemoveCall(paths)] else [])
      && db.bucket == (if |paths| > 0 && removeError.None? then old(db.bucket) - Elements(paths) else old(db.bucket))
  {
    if !Authorized(auth, adminId) {
      return Unauthorized();
    }
    var toDelete := db.FetchProject(projectId, fetchError);
    if fetchError.Some? {
      return Response(false, "Error fetching project: " + fetchError.value);
    }
    db.DeleteProject(projectId, deleteError);
    if deleteError.Some? {
      return Response(false, "Failed to delete project: " + deleteError.value);
    }
    if toDelete.Some? && toDelete.value.imageUrls.Some? && |toDelete.value.imageUrls.value| > 0 {
      var filePaths := StoragePaths(toDelete.value.imageUrls.value);
      if |filePaths| > 0 {
        // A storage error is only logged: the row is already gone.
        db.Remove(filePaths, removeError);
      }
    }
    return Response(true, "Project deleted successfully!");
  }

  // ---------------------------------------------------------------------
  // Lemmas about the stored rows
  // ---------------------------------------------------------------------

  /** The columns of the inserted row: empty URLs become null, the project
      is published exactly for `"on"`, and the owner is the signed-in user. */
  lemma NewProjectColumns(form: ProjectForm, imageUrls: seq<string>, userId: string)
    ensures var row := NewProject(form, imageUrls, userId);
      && (row.githubUrl.None? <==> form.githubUrl.None? || form.githubUrl == Some(""))
      && (row.liveDemoUrl.None? <==> form.liveDemoUrl.None? || form.liveDemoUrl == Some(""))
      && (row.isPublished <==> form.isPublished == Some("on"))
      && row.userId == userId && row.imageUrls == Some(imageUrls)
  {
  }

  /** The columns of the updated row: empty URLs become null, the project is
      published exactly for `"on"`, the owner is kept, and every stored image
      URL stays in place in front of the new ones. */
  lemma UpdatedProjectColumns(form: ProjectForm, current: Project, added: seq<string>)
    ensures var row := UpdatedProject(current, form, ExistingUrls(current) + added);
      && (row.githubUrl.None? <==> form.githubUrl.None? || form.githubUrl == Some(""))
      && (row.liveDemoUrl.None? <==> form.liveDemoUrl.None? || form.liveDemoUrl == Some(""))
      && row.userId == current.userId
      && (row.isPublished <==> form.isPublished == Some("on"))
      && row.imageUrls.Some?
      && row.imageUrls.value[..|ExistingUrls(current)|] == ExistingUrls(current)
      && row.imageUrls.value[|ExistingUrls(current)|..] == added
  {
    var merged := ExistingUrls(current) + added;
    assert merged[..|ExistingUrls(current)|] == ExistingUrls(current);
    assert merged[|ExistingUrls(current)|..] == added;
  }

  // ---------------------------------------------------------------------
  // Lemmas about the technologies field
  // ---------------------------------------------------------------------

  /** One step of CleanEntries. */
  lemma CleanEntriesCons(part: string, rest: seq<string>)
    ensures CleanEntries([part] + rest)
      == (if Trim(part) != "" then [Trim(part)] else []) + CleanEntries(rest)
  {
    assert ([part] + rest)[1..] == rest;
  }

  /** Cleaned entries are non-empty and trimmed; from comma-free pieces they
      are comma-free. */
  lemma {:induction false} CleanEntriesClean(parts: seq<string>)
    ensures forall t :: t in CleanEntries(parts) ==> t != "" && Trimmed(t)
    ensures (forall p :: p in parts ==> ',' !in p) ==> forall t :: t in CleanEntries(parts) ==> ',' !in t
    decreases |parts|
  {
    if |parts| > 0 {
      CleanEntriesCons(parts[0], parts[1..]);
      assert parts == [parts[0]] + parts[1..];
      TrimIsTrimmed(parts[0]);
      CleanEntriesClean(parts[1..]);
      if forall p :: p in parts ==> ',' !in p {
        assert parts[0] in parts;
        TrimChars(parts[0], ',');
        assert forall p :: p in parts[1..] ==> p in parts;
      }
    }
  }

  /** Parsed technologies are non-empty, trimmed and free of commas. */
  lemma ParseTechnologiesEntries(technologies: string)
    ensures forall t :: t in ParseTechnologies(technologies) ==> t != "" && Trimmed(t) && ',' !in t
  {
    var parts := Split(technologies, ",");
    SplitPartsFree(technologies, ",");
    forall p | p in parts ensures ',' !in p {
      ContainsChar(p, ',');
      assert "," == [','];
    }
    CleanEntriesClean(parts);
  }

  /** An empty field, or one of white space alone, gives no technologies. */
  lemma ParseTechnologiesBlank(s: string)
    requires forall c :: c in s ==> IsSpace(c)
    ensures ParseTechnologies(s) == []
  {
    assert !IsSpace(',');
    assert "," == [','];
    ContainsChar(s, ',');
    SplitOfFree(s, ",");
    TrimAllSpace(s);
    CleanEntriesCons(s, []);
  }

  /** A comma-free piece in front of a comma is parsed on its own. */
  lemma ParseTechnologiesCons(a: string, b: string)
    requires ',' !in a
    ensures ParseTechnologies(a + "," + b)
      == (if Trim(a) != "" then [Trim(a)] else []) + ParseTechnologies(b)
  {
    assert "," == [','];
    ContainsChar(a, ',');
    assert FirstCharUnique(",");
    SplitAfterFree(a, ",", b);
    CleanEntriesCons(a, Split(b, ","));
  }

  lemma {:induction false} CleanEntriesAppend(p: seq<string>, q: seq<string>)
    ensures CleanEntries(p + q) == CleanEntries(p) + CleanEntries(q)
    decreases |p|
  {
    if |p| == 0 {
      assert p + q == q;
    } else {
      assert p + q == [p[0]] + (p[1..] + q);
      assert p == [p[0]] + p[1..];
      CleanEntriesCons(p[0], p[1..] + q);
      CleanEntriesCons(p[0], p[1..]);
      CleanEntriesAppend(p[1..], q);
    }
  }

  /** Parsing keeps the input order: it distributes over a comma. */
  lemma ParseTechnologiesAppend(a: string, b: string)
    ensures ParseTechnologies(a + "," + b) == ParseTechnologies(a) + ParseTechnologies(b)
  {
    assert FirstCharUnique(",");
    SplitConcat(a, ",", b);
    CleanEntriesAppend(Split(a, ","), Split(b, ","));
  }

  /** A single comma-free entry parses to its trimmed text. */
  lemma ParseEntry(s: string)
    requires ',' !in s && Trim(s) != ""
    ensures ParseTechnologies(s) == [Trim(s)]
  {
    assert "," == [','];
    ContainsChar(s, ',');
    SplitOfFree(s, ",");
    CleanEntriesCons(s, []);
  }

  /** `[x, ...rest].join(", ")` is `x + ", " + rest.join(", ")`, here after `pre`. */
  lemma JoinCons(pre: string, xs: seq<string>)
    requires |xs| >= 2
    ensures pre + Join(xs, ", ") == (pre + xs[0]) + "," + (" " + Join(xs[1..], ", "))
  {
    var rest := Join(xs[1..], ", ");
    assert Join(xs, ", ") == xs[0] + ", " + rest;
    CommaSpaceAssoc(pre, xs[0], rest);
  }

  /** Regrouping around the comma and the space of `", "`. */
  lemma CommaSpaceAssoc(pre: string, x: string, rest: string)
    ensures pre + (x + ", " + rest) == (pre + x) + "," + (" " + rest)
  {
    assert ", " + rest == "," + (" " + rest);
    assert x + ", " + rest == x + (", " + rest);
  }

  /** An entry with one space in front of it trims to itself. */
  lemma TrimEntry(pre: string, x: string)
    requires pre == "" || pre == " "
    requires x != "" && Trimmed(x)
    ensures Trim(pre + x) == x
  {
    if pre == " " {
      TrimLeadingSpace(x);
    } else {
      assert pre + x == x;
      TrimTrimmed(x);
    }
  }

  /** The round trip for one entry. */
  lemma ParseJoinOne(pre: string, x: string)
    requires pre == "" || pre == " "
    requires x != "" && Trimmed(x) && ',' !in x
    ensures ParseTechnologies(pre + Join([x], ", ")) == [x]
  {
    TrimEntry(pre, x);
    assert ',' !in pre + x;
    ParseEntry(pre + x);
  }

  /** The round trip for the first of several entries, given the rest. */
  lemma ParseJoinStep(pre: string, xs: seq<string>)
    requires pre == "" || pre == " "
    requires |xs| >= 2 && xs[0] != "" && Trimmed(xs[0]) && ',' !in xs[0]
    requires ParseTechnologies(" " + Join(xs[1..], ", ")) == xs[1..]
    ensures ParseTechnologies(pre + Join(xs, ", ")) == xs
  {
    var x := xs[0];
    var rest := Join(xs[1..], ", ");
    TrimEntry(pre, x);
    assert ',' !in pre + x;
    JoinCons(pre, xs);
    ParseTechnologiesCons(pre + x, " " + rest);
    assert xs == [x] + xs[1..];
  }

  /** The round trip, after an optional leading space (the one `", "` leaves). */
  lemma {:induction false} ParseJoinFrom(pre: string, xs: seq<string>)
    requires pre == "" || pre == " "
    requires forall t :: t in xs ==> t != "" && Trimmed(t) && ',' !in t
    ensures ParseTechnologies(pre + Join(xs, ", ")) == xs
    decreases |xs|
  {
    if |xs| == 0 {
      assert pre + Join(xs, ", ") == pre;
      assert forall c :: c in pre ==> c == ' ';
      ParseTechnologiesBlank(pre);
    } else if |xs| == 1 {
      assert xs == [xs[0]] && xs[0] in xs;
      ParseJoinOne(pre, xs[0]);
    } else {
      assert xs[0] in xs;
      assert forall t :: t in xs[1..] ==> t in xs;
      ParseJoinFrom(" ", xs[1..]);
      ParseJoinStep(pre, xs);
    }
  }

  /** Parsing the `", "`-joined list that pre-fills the edit form gives the
      list back, when its entries are non-empty, trimmed and comma-free. */
  lemma ParseJoinRoundTrip(technologies: seq<string>)
    requires forall t :: t in technologies ==> t != "" && Trimmed(t) && ',' !in t
    ensures ParseTechnologies(JoinTechnologies(technologies)) == technologies
  {
    ParseJoinFrom("", technologies);
    assert "" + Join(technologies, ", ") == JoinTechnologies(technologies);
  }

  // ---------------------------------------------------------------------
  // Lemmas about the uploads
  // ---------------------------------------------------------------------

  /** Uploads keep the order of the files: the stored list distributes over
      concatenation. */
  lemma UploadedPathsAppend(dir: string, f: seq<UploadFile>, a: seq<Attempt>, g: seq<UploadFile>, b: seq<Attempt>)
    requires |a| == |f| && |b| == |g|
    ensures UploadedPaths(dir, f + g, a + b) == UploadedPaths(dir, f, a) + UploadedPaths(dir, g, b)
  {
    CollectAppend(PathOf(dir), f, a, g, b);
  }

  /** One file contributes its path exactly when it is not empty and its
      upload succeeded: empty files are skipped, failures are not stored. */
  lemma UploadedPathsSingle(dir: string, file: UploadFile, attempt: Attempt)
    ensures UploadedPaths(dir, [file], [attempt]) ==
      (if file.size > 0 && attempt.error.None? then [ObjectPath(dir, attempt.freshName, file.name)] else [])
  {
    assert [file][..0] == [] && [attempt][..0] == [];
    assert Collect(PathOf(dir), [file], [attempt]) == [] + UploadedPath(dir, file, attempt);
  }

  /** Every non-empty file yields exactly one stored URL or one upload error, so
      no more URLs are stored than there were non-empty files. */
  lemma {:induction false} UploadCount(dir: string, files: seq<UploadFile>, attempts: seq<Attempt>)
    requires |attempts| == |files|
    ensures |UploadedPaths(dir, files, attempts)| + |UploadFailures(files, attempts)| == NonEmptyCount(files)
    decreases |files|
  {
    if |files| > 0 {
      var n := |files| - 1;
      UploadCount(dir, files[..n], attempts[..n]);
    }
  }

  /** Every stored path is `<dir>/<fresh name>.<extension>` of a non-empty file
      whose upload succeeded. */
  lemma {:induction false} UploadedPathShape(dir: string, files: seq<UploadFile>, attempts: seq<Attempt>)
    requires |attempts| == |files|
    ensures forall p :: p in UploadedPaths(dir, files, attempts) ==>
      (exists i :: 0 <= i < |files| && files[i].size > 0 && attempts[i].error.None?
         && p == ObjectPath(dir, attempts[i].freshName, files[i].name))
    decreases |files|
  {
    if |files| > 0 {
      var n := |files| - 1;
      UploadedPathShape(dir, files[..n], attempts[..n]);
      forall p | p in UploadedPaths(dir, files, attempts)
        ensures (exists i :: 0 <= i < |files| && files[i].size > 0 && attempts[i].error.None?
                   && p == ObjectPath(dir, attempts[i].freshName, files[i].name))
      {
        if p in UploadedPaths(dir, files[..n], attempts[..n]) {
          var i :| 0 <= i < n && files[..n][i].size > 0 && attempts[..n][i].error.None?
            && p == ObjectPath(dir, attempts[..n][i].freshName, files[..n][i].name);
          assert files[i] == files[..n][i] && attempts[i] == attempts[..n][i];
        } else {
          assert files[n].size > 0 && attempts[n].error.None?;
        }
      }
    }
  }

  /** Deleting a project removes exactly the objects its image URLs were made
      from, when neither the URL base nor any uploaded path holds the marker. */
  lemma DeleteRemovesUploadedImages(base: string, dir: string, files: seq<UploadFile>, attempts: seq<Attempt>)
    requires |attempts| == |files|
    requires !Contains(base, Marker)
    requires forall p :: p in UploadedPaths(dir, files, attempts) ==> !Contains(p, Marker)
    ensures StoragePaths(PublicUrls(base, UploadedPaths(dir, files, attempts))) == UploadedPaths(dir, files, attempts)
  {
    UploadedPathShape(dir, files, attempts);
    StoragePathsOfPublicUrls(base, UploadedPaths(dir, files, attempts));
  }
}
