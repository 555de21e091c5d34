# Portfolio admin: server actions, route guard and auth guard

A Dafny model of the rules behind a small portfolio site's admin area. The
site has a `projects` table and a `skills` table. Uploaded images and icons
live in the `portfolio-images` storage bucket. The model covers:

- the project server actions `createProject`, `updateProject` and
  `deleteProject`, with their upload loop, the parsing of the comma-separated
  technologies field, the merge of stored and new image URLs, and the mapping
  of stored public URLs back to the bucket paths that deletion removes;
- the skill server actions `createSkill`, `updateSkill` and `deleteSkill`,
  with the single-icon upload, the old-icon removal and the warning-suffixed
  success message;
- the redirect decision of the request middleware;
- the refresh test of the client-side auth guard.

The backend is the class `Remote.Backend`. Its fields are:

- the two tables, each a map from row id to row;
- the set of object paths in the bucket;
- the log of storage requests sent.

The backend's own methods are the remote calls: upload, remove, and the
fetch, insert, update and delete of each table. Each of them takes its
outcome (an error, or the id the database assigns) as a parameter.

The server actions are module-level methods of `ProjectActions` and
`SkillActions` that take the backend as their `db` argument. Whatever the
remote side decides is a parameter of the action:

- the result of `getUser()`;
- the error, if any, of each upload, fetch, insert, update, delete and remove;
- the id the database assigns;
- the fresh `<Date.now()>-<random>` name of each upload.

The string operations are written out in `JsStrings`:

- `split` and `trim`: the actions use these to parse the technologies field
  and file names, and to map a stored URL back to its path;
- `join`: the edit form uses it to pre-fill the technologies field;
- `startsWith`: the middleware uses it to test the pathname.

The source does not call `indexOf`. `IndexFrom` is the search for the next
separator that `split` performs. Properties of these operations are proved there and then used by
the other modules. For example, `split` then `join` gives the input back.
The fact that `split(".").pop()` is the last dot-separated segment of a
file name is proved in `Storage`.

Files:

- `common.dfy`: `Option` and the set of elements of a list.
- `js_strings.dfy`: the JavaScript string operations.
- `storage.dfy`: public URLs, URL-to-path extraction, and file extensions.
- `remote.dfy`: the rows and the backend class.
- `server_actions.dfy`: what both groups of actions share.
- `project_actions.dfy` and `skill_actions.dfy`: the actions.
- `middleware.dfy` and `auth_guard.dfy`.

## Model

| member | source | states |
|---|---|---|
| JsStrings.IndexFromFound | src/app/admin/skills/actions.ts:157 | a position found by the search inside `split` is an occurrence of the separator, and no earlier position at or after the start is one |
| JsStrings.IndexFromAbsent | src/app/admin/skills/actions.ts:157 | when the search inside `split` finds nothing, the separator occurs nowhere at or after the start |
| JsStrings.ContainsIndex | src/app/admin/skills/actions.ts:157 | the search inside `split` finds the separator exactly when the string contains it |
| JsStrings.JoinSplit | src/app/admin/skills/actions.ts:157 | joining the pieces of a split with the separator gives the string back |
| JsStrings.SplitPartsFree | src/app/admin/skills/actions.ts:157 | no piece of a split contains the separator |
| JsStrings.SplitConcat | src/app/admin/projects/actions.ts:73-74 | for a separator whose first character does not recur in it, splitting `a + sep + b` is splitting `a` followed by splitting `b` |
| JsStrings.SplitLastSuffix | src/app/admin/projects/actions.ts:43 | the last piece of a split (what `pop()` returns) ends the string |
| JsStrings.SplitLastPreceded | src/app/admin/projects/actions.ts:43 | the last piece of a split is the whole string or comes right after an occurrence of the separator |
| JsStrings.TrimIsTrimmed | src/app/admin/projects/actions.ts:75 | `trim()` leaves no white space at either end |
| JsStrings.TrimIsSlice | src/app/admin/projects/actions.ts:75 | `trim()` only cuts white space off the two ends: its result is a slice with nothing but white space around it |
| JsStrings.TrimTrimmed | src/app/admin/projects/actions.ts:75 | `trim()` leaves a string without white space at its ends unchanged |
| JsStrings.TrimChars | src/app/admin/projects/actions.ts:75 | `trim()` introduces no character |
| Storage.StoragePathNoMarker | src/app/admin/skills/actions.ts:157-158 | a URL without `portfolio-images/` gives the empty path, and no extracted path contains the marker |
| Storage.StoragePathBetweenMarkers | src/app/admin/skills/actions.ts:157-158 | when the marker occurs, the path is the text after its first occurrence, up to the next occurrence or to the end of the URL |
| Storage.StoragePathOfPublicUrl | next.config.ts:10 | a public URL `base + "portfolio-images/" + path` gives back `path` when neither part holds the marker |
| Storage.StoragePathsAppend | src/app/admin/projects/actions.ts:155-160 | mapping stored URLs to paths (dropping empty ones) keeps their order: it distributes over concatenation |
| Storage.StoragePathsNonEmpty | src/app/admin/projects/actions.ts:160 | every path sent to `remove` is non-empty |
| Storage.StoragePathsDropUnmarked | src/app/admin/projects/actions.ts:157-160 | a URL without the marker contributes no path |
| Storage.PublicUrlsAppend | src/app/admin/projects/actions.ts:63-68 | the public URLs of concatenated path lists are the concatenated URL lists |
| Storage.PublicUrlsAt | src/app/admin/projects/actions.ts:63-68 | the k-th URL is the public URL of the k-th path |
| Storage.StoragePathsOfPublicUrls | src/app/admin/projects/actions.ts:155-160 | mapping the stored public URLs back gives exactly the uploaded paths, in order, when they are non-empty and marker-free |
| Storage.ExtensionIsLastSegment | src/app/admin/projects/actions.ts:43 | the extension holds no dot, ends the file name, and is either the whole name or preceded by a dot |
| Storage.LastSegmentUnique | src/app/admin/projects/actions.ts:43 | such a last segment is unique |
| Storage.ExtensionIsSplitPop | src/app/admin/projects/actions.ts:43 | the extension equals `fileName.split(".").pop()` |
| Remote.Backend.Upload | src/app/admin/projects/actions.ts:47-52 | an upload adds its path to the bucket exactly when it succeeds and is logged either way; the tables are unchanged |
| Remote.Backend.Remove | src/app/admin/projects/actions.ts:163-165 | a successful removal takes the paths out of the bucket; a failed one leaves the bucket as it was |
| Remote.Backend.FetchProject | src/app/admin/projects/actions.ts:127-131 | `.single()` gives the row, or no data when the request fails or no row has that id |
| Remote.Backend.InsertProject | src/app/admin/projects/actions.ts:78-87 | an insert adds the row under its fresh id or changes nothing and reports the error |
| Remote.Backend.UpdateProject | src/app/admin/projects/actions.ts:274-285 | an update replaces the row with that id when it succeeds and otherwise changes nothing |
| Remote.Backend.DeleteProject | src/app/admin/projects/actions.ts:141-144 | a delete removes the row with that id when it succeeds and otherwise changes nothing |
| Remote.Backend.FetchSkill | src/app/admin/skills/actions.ts:214-218 | the skill row, or no data |
| Remote.Backend.InsertSkill | src/app/admin/skills/actions.ts:72-77 | the skill insert, as for projects |
| Remote.Backend.UpdateSkill | src/app/admin/skills/actions.ts:287-294 | the skill update, as for projects |
| Remote.Backend.DeleteSkill | src/app/admin/skills/actions.ts:142-145 | the skill delete, as for projects |
| ProjectActions.UploadOne | src/app/admin/projects/actions.ts:41-70 | one file: an empty file is skipped; otherwise it is uploaded to `<user id>/<fresh name>.<extension>`, a success appends its public URL, and a failure appends "Failed to upload <name>: <message>" |
| ProjectActions.UploadImages | src/app/admin/projects/actions.ts:37-71 | after the loop, `imageUrls` is the starting list followed by the public URLs of the successful uploads in file order; `uploadErrors`, the bucket and the request log grow by the failures, the uploaded paths and the upload requests of the files; the tables are untouched |
| ProjectActions.UploadedPathsAppend | src/app/admin/projects/actions.ts:40-71 | the uploaded paths keep the order of the files: they distribute over concatenation of the file list |
| ProjectActions.UploadedPathsSingle | src/app/admin/projects/actions.ts:41-68 | a single file contributes its path exactly when it is not empty and its upload succeeded |
| ProjectActions.UploadCount | src/app/admin/projects/actions.ts:37-71 | every non-empty file gives exactly one stored URL or one upload error, so no more URLs are stored than there are non-empty files |
| ProjectActions.UploadedPathShape | src/app/admin/projects/actions.ts:43-45 | every stored path is `<user id>/<fresh name>.<extension>` of a non-empty file whose upload succeeded |
| ProjectActions.CreateProject | src/app/admin/projects/actions.ts:13-107 | refused callers change nothing; otherwise the images are uploaded and the inserted row holds the parsed technologies, null for empty URLs, the published flag, the public URLs of the successful uploads and the user id; the result carries the insert error or success |
| ProjectActions.UpdateProject | src/app/admin/projects/actions.ts:190-306 | refused callers and a failed fetch or missing row change nothing and report "Error fetching project: " with the message or "Project not found"; otherwise the new `image_urls` is the stored list (or `[]`) followed by the new public URLs, every form column is replaced, and the owner is kept |
| ProjectActions.DeleteProject | src/app/admin/projects/actions.ts:110-187 | a fetch error or a delete error changes nothing; after the row is gone, one `remove` is sent with the storage paths of its stored URLs when there are any, and its error still gives success |
| ProjectActions.NewProjectColumns | src/app/admin/projects/actions.ts:78-87 | the inserted row stores empty URL fields as null, sets `is_published` exactly for "on" (line 22), and has the signed-in user as owner |
| ProjectActions.UpdatedProjectColumns | src/app/admin/projects/actions.ts:233-285 | the updated row stores empty URL fields as null, sets `is_published` exactly for "on", keeps the owner, and keeps every stored image URL in place in front of the new ones |
| ProjectActions.CleanEntriesClean | src/app/admin/projects/actions.ts:74-76 | every cleaned entry is non-empty and trimmed, and comma-free when the pieces were |
| ProjectActions.ParseTechnologiesEntries | src/app/admin/projects/actions.ts:73-76 | every parsed technology is non-empty, trimmed and free of commas |
| ProjectActions.ParseTechnologiesBlank | src/app/admin/projects/actions.ts:73-76 | an empty field, or one holding only white space, gives no technologies |
| ProjectActions.ParseTechnologiesCons | src/app/admin/projects/actions.ts:73-76 | the comma-free text before the first comma gives the first entry, if it is not blank |
| ProjectActions.CleanEntriesAppend | src/app/admin/projects/actions.ts:75-76 | trimming and dropping blanks keeps the order: it distributes over concatenation |
| ProjectActions.ParseTechnologiesAppend | src/app/admin/projects/actions.ts:73-76 | parsing keeps the input order: `parse(a + "," + b) == parse(a) + parse(b)` |
| ProjectActions.ParseEntry | src/app/admin/projects/actions.ts:73-76 | a single comma-free, non-blank entry parses to its trimmed text |
| ProjectActions.ParseJoinFrom | src/app/admin/projects/actions.ts:269-272 | parsing a `", "`-joined list, after an optional leading space, gives the list back when its entries are non-empty, trimmed and comma-free |
| ProjectActions.ParseJoinRoundTrip | src/components/project-form.tsx:92 | the edit form's `technologies.join(", ")` parses back to the stored list when its entries are non-empty, trimmed and comma-free |
| ProjectActions.DeleteRemovesUploadedImages | src/app/admin/projects/actions.ts:154-165 | deleting a project removes exactly the objects its stored image URLs were uploaded to, when the URL base and the paths are marker-free |
| SkillActions.IconPaths | src/app/admin/skills/actions.ts:155-160 | a stored icon gives at most one path to remove, and never an empty one |
| SkillActions.WithWarning | src/app/admin/skills/actions.ts:96-101 | without an upload error the message is the plain success text; with one it extends that text |
| SkillActions.UploadIcon | src/app/admin/skills/actions.ts:41-69 | without a non-empty file nothing is sent; otherwise the icon is uploaded to `skill-icons/<fresh name>.<extension>` and gives its public URL, or the prefixed error message |
| SkillActions.CreateSkill | src/app/admin/skills/actions.ts:18-102 | refused callers change nothing; otherwise the inserted row holds the name, the icon URL only after a successful upload (null otherwise), the category or null, and the user id; a warning is appended for a failed upload |
| SkillActions.UpdateSkill | src/app/admin/skills/actions.ts:192-321 | a failed fetch or missing row changes nothing; with a new file, the old icon's object is removed first, whatever the upload does; the stored icon becomes the new URL only after a successful upload; name and category are replaced, the owner kept |
| SkillActions.DeleteSkill | src/app/admin/skills/actions.ts:108-186 | a fetch error or a delete error changes nothing; after the row is gone its icon's object is removed when its URL gives a path, and a removal error still gives success |
| SkillActions.IconPathsOfPublicUrl | src/app/admin/skills/actions.ts:155-160 | a stored public icon URL gives back exactly its object path |
| SkillActions.DeleteRemovesCreatedIcon | src/app/admin/skills/actions.ts:155-163 | deleting a skill removes exactly the icon its creation uploaded, when the paths are marker-free |
| SkillActions.WarningExactlyOnUploadFailure | src/app/admin/skills/actions.ts:96-101 | the success message carries " (Warning: <prefix><error>)" exactly when a file was supplied and its upload failed |
| SkillActions.IconSelection | src/app/admin/skills/actions.ts:231-283 | the new icon URL appears exactly after a supplied file's successful upload and lies under `skill-icons/`; otherwise update keeps the current URL and create stores null |
| SkillActions.UpdateWithoutFileKeepsIcon | src/app/admin/skills/actions.ts:235 | without a new file, update sends no storage request and keeps the icon and the bucket |
| SkillActions.UpdateIconDangles | src/app/admin/skills/actions.ts:235-283 | after a successful update, the stored icon URL points at a missing object exactly when a new file was supplied, the old icon's removal succeeded and the new upload failed |
| SkillActions.FailedUpdateIconDangles | src/app/admin/skills/actions.ts:235-302 | after a failed update, the row keeps its old icon URL, which points at a missing object exactly when a new file was supplied and the old icon's removal succeeded, whatever the upload did |
| Middleware.Decide | src/lib/supabase/middleware.ts:33-60 | a redirect to `/auth/login` happens exactly for no user on a path starting with `/admin` (the code's exclusion of the auth pages never applies); a redirect to `/admin` happens exactly for a user on the login or sign-up page; every other request passes through; a redirect keeps origin and query |
| Middleware.AdminPathNotAuthPath | src/lib/supabase/middleware.ts:38-43 | no `/admin` path is a login or sign-up page, so the exclusions of the first rule never matter |
| Middleware.AnonymousRedirect | src/lib/supabase/middleware.ts:38-47 | without a user, a request is redirected exactly when its path starts with `/admin`, and only to the login page |
| Middleware.SignedInRedirect | src/lib/supabase/middleware.ts:50-58 | with a user, a request is redirected exactly for the login and sign-up pages, and only to `/admin` |
| Middleware.NoRedirectLoop | src/lib/supabase/middleware.ts:45-56 | the target of a redirect passes through for the same user state |
| Middleware.AdministratorIsGuarded | src/lib/supabase/middleware.ts:36 | prefix matching sends an anonymous `/administrator` to the login page |
| AuthGuard.ShouldRefresh | src/components/auth-guard.tsx:20-27 | the guard refreshes exactly when the session's user id and the rendered user id differ, whatever the event |
| AuthGuard.RefreshOnPresenceChange | src/components/auth-guard.tsx:22 | a user appearing or disappearing always refreshes; no user on either side never does |
| AuthGuard.RefreshOnUserChange | src/components/auth-guard.tsx:24 | with users on both sides, the guard refreshes exactly when their ids differ |

## Left out

- Rendering, pages and forms are not modelled. The one exception is the
  `join(", ")` that pre-fills the technologies field, which is the other side
  of the parsing round trip.
- `revalidatePath` cache invalidation and `console` logging are left out.
  They change nothing the model observes.
- The session-cookie adapter of the middleware (`getAll` and `setAll`) and
  the middleware's `matcher` are left out. The model starts from whether
  `getUser()` returned a user, and from the pathname of a request the matcher
  let through.
- The backend SDK's internals are not modelled. The client creation, the auth
  call, storage, `getPublicUrl` and the table requests appear only as the
  state changes they make, with their outcomes passed in.
- `getPublicUrl` is always taken to return data, and a successful upload is
  always taken to return data. The code guards both against absence.
- The public URL of a path is written as `base + "portfolio-images/" + path`,
  the shape of the image pattern in next.config.ts:10.
- `Date.now()` and `Math.random()` are replaced by the fresh name passed in
  with each upload. The model does not claim the names are distinct.
- A storage `remove` that reports an error leaves the bucket as it was. The
  model does not cover a removal that only partly succeeds.
- `.single()` on an id with no row is modelled as no data and no error. In
  that case the delete actions go on and delete nothing.
- Remote.Backend.InsertProject and Remote.Backend.InsertSkill: the requires
  needs the new id to be fresh. The database assigns primary keys, so it
  always is.
- Form values are taken as strings as the code casts them. The `_prevState`
  argument of the actions is unused and not modelled.
- The actions' `await`s are taken in program order. Nothing else runs in
  between.
- AuthGuard.ShouldRefresh: the subscription to auth events, its cleanup and
  `router.refresh()` itself are left out. Only the test that decides a
  refresh is modelled.
- Middleware.Decide: there is no `Decide` in the source. The decision is
  inline in `middleware`. The pass-through response stands for the response
  that carries the refreshed cookies, and its contents are not modelled.
