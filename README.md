# PhotoFolio in Dafny

A model of the PhotoFolio web application. PhotoFolio is a Next.js client that has three parts:

- **User directory.** Users, with bcrypt password hashes, are stored in a document store. The directory can seed three default users, validate a login, sign a user up, remove a user (refusing `star`) and change a password.
- **Login session.** Two `localStorage` keys hold the session. The `/` and `/folio` pages gate on them.
- **Photo folio.** A signed-in user's folio is a set of collections of photos, and each photo has variants. Image bytes live in a blob store behind the app's own `/api/upload` route (POST issues upload tokens; DELETE deletes blobs). Document deletes never cascade, so every handler deletes the sub-documents it knows of one by one.

## How the model is built

- **One store.** The hosted services are one value, `Cloud.Store`. It holds the four document tables (users, collections, photos, variants), kept flat with their parent ids, and the set of stored blob URLs. `Cloud.Backend` is the class that holds the store while a handler runs.
- **Calls.** Every external call a handler makes is a `Cloud.Call` value. That covers:
  - a document query, add, update or delete;
  - a bcrypt hash or compare;
  - an AI title generation;
  - a blob upload, and the blob DELETE request.
  `Cloud.Effect` gives each call's effect on the store, and `Cloud.Run` folds a list of calls over it.
- **Throwing.** Whether a call throws is decided by the environment `Cloud.Env`: a call in `env.faults` throws, and so does an update of a missing document or an upload the route refuses. A call that throws changes nothing.
- **Handlers.** Each handler is a method that returns the trace of calls it issued. It is specified by a function of the old state, `XSpec`, which gives its result and that trace. Its `ensures` ties the new store to `Run(old store, trace)`.
- **Properties.** The properties the code promises are proved as lemmas about these spec functions. Examples: which calls are made in which order, what is deleted, what survives a failure, the login round trip, and the order of the folio.
- **Components.** Components whose methods update state are classes whose fields are the component's React state. Examples are the forms, the dialogs, the app and the drop zone.

Module by module:

| module | file | models |
|---|---|---|
| `Wrappers` | wrappers.dfy | `Option` / `Result` |
| `Text` | text.dfy | `String.prototype.trim` (the ECMAScript white-space and line-terminator set) and ASCII `toLowerCase` |
| `BlobRoute` | upload_route.dfy | `POST` / `DELETE` of `src/app/api/upload/route.ts` |
| `Cloud` | cloud.dfy | the document and blob stores, calls and their effects |
| `UserStore` | user_store.dfy | `src/lib/user-store.ts` |
| `Session` | session.dfy | `localStorage`, possibly unavailable (every access then throws) |
| `Home` | root_page.dfy | `src/app/page.tsx` |
| `LoginForm`, `SignupForm` | login_form.dfy, signup_form.dfy | the two forms |
| `PasswordDialog` | change_password_dialog.dfy | the change-password dialog |
| `Uploader` | photo_uploader.dfy | the drop/paste zone |
| `CreateDialog`, `EditTitleDialog` | create_collection_dialog.dfy, edit_photo_title_dialog.dfy | the two title dialogs |
| `Preview` | photo_upload_preview_dialog.dfy | title generation and upload of new photos |
| `Lightbox` | lightbox_dialog.dfy | variant upload and delete |
| `ManageUsers` | manage_users_dialog.dfy | removal of a user and all their data |
| `Folio` | photo_folio_app.dfy | `PhotoFolioApp`: loading, creating, adding, deleting, retitling, logout |
| `FolioGate` | folio_page.dfy | `src/app/folio/page.tsx`, and how the app is wired to it |

## Model

| member | source | states |
|---|---|---|
| BlobRoute.Post | src/app/api/upload/route.ts:5-38 | A body that is not JSON makes `request.json()` throw before anything else: an unhandled 500. With no token the route answers 500 with the token message. If `handleUpload` throws it answers 400 with the thrown message; otherwise 200 with its JSON. The response is ok exactly when the token is set and the upload was handled. |
| BlobRoute.Delete | src/app/api/upload/route.ts:40-63 | A body that is not JSON, or JSON `null` whose destructuring throws, gives an unhandled 500 before the token check. Among readable bodies the token check comes first (500), then a missing or non-array `urls` (400), then `del`. A `del` failure gives 500 with the "Failed to delete files: " message. The response is ok exactly when `del` is reached and succeeds. |
| BlobRoute.ClientFilterIsWider | src/app/api/upload/route.ts:19 | Every content type the route allows starts with `image/`, but `image/svg+xml` passes the client's `image/` filter and is refused by the route. |
| Text.Trim | src/components/create-collection-dialog.tsx:30-31 | The result is a contiguous slice of the input whose prefix and suffix are all white space and whose ends are not white space. It is empty exactly when the input is blank, and never longer than the input. |
| Text.LeadingSpaces | src/components/create-collection-dialog.tsx:30 | The count of leading white-space characters: all of them are white space and the next one is not. |
| Text.TrailingSpaces | src/components/create-collection-dialog.tsx:30 | The count of trailing white-space characters: all of them are white space and the one before them is not. |
| Text.TrimShape | src/components/create-collection-dialog.tsx:30 | Cutting a white-space prefix that stops at a non-white-space character, then a white-space suffix of the rest that stops likewise, leaves a slice with blank surroundings and non-white-space ends, empty exactly when the input is blank. |
| Text.TrimIdempotent | src/components/edit-photo-title-dialog.tsx:38-39 | Trimming an already trimmed title changes nothing. |
| Text.NonBlank | src/components/create-collection-dialog.tsx:30-31 | `title.trim()` tested for truthiness: None exactly for a blank title, otherwise the non-empty trimmed title, which is a fixed point of trim. |
| Text.LowerChar | src/lib/user-store.ts:93 | The result is never an upper-case ASCII letter, and it is a lower-case letter exactly when the input is a letter. |
| Text.Lower | src/lib/user-store.ts:93 | `toLowerCase` keeps the length and lowers every character. |
| Text.LowerIdempotent | src/lib/user-store.ts:147 | A stored (lowered) name lowers to itself, so lookups by a stored name find it. |
| Text.LowerOfLowerCase | src/lib/user-store.ts:44-56 | A string without capitals (every default name) is its own lower case. |
| Text.JsLength | src/components/signup-form.tsx:33 | JavaScript's `length`: between the number of characters and twice it. |
| Text.JsLengthCountsChars | src/components/change-password-dialog.tsx:43 | `length` is the number of characters exactly when none lies outside the Basic Multilingual Plane. |
| Text.ThreeEmoji | src/components/signup-form.tsx:33 | Three emoji are three characters but have `length` 6, so they pass the six-character minimum. |
| Cloud.DeletePhotoCalls | src/components/photo-folio-app.tsx:372-376 | One photo-document delete per listed photo, in list order. |
| Cloud.BlobResponse | src/app/api/upload/route.ts:40-63 | The blob DELETE response to a well-formed request is ok exactly when the token is set and `del` succeeds. |
| Cloud.NewUsers | src/lib/user-store.ts:50-60 | A committed batch of entries becomes one user record per entry, with consecutive fresh ids and the entry's name and hash. |
| Cloud.WithHash | src/lib/user-store.ts:218-219 | Updating one user's hash keeps the table's length and changes only the record with that id. |
| Cloud.RetitledCollection | src/components/photo-folio-app.tsx:434-435 | `updateDoc(title)` changes the title of the collection with that id and nothing else. |
| Cloud.RetitledPhoto | src/components/photo-folio-app.tsx:451-452 | `updateDoc(title)` changes the title of the photo with that collection and id and nothing else. |
| Cloud.OwnedMembers | src/components/photo-folio-app.tsx:149-152 | The `userName ==` query returns exactly the collections of that user. |
| Cloud.PhotosOfMembers | src/components/photo-folio-app.tsx:160-163 | The photos query of a collection returns exactly that collection's photos. |
| Cloud.StoredCons | src/components/photo-upload-preview-dialog.tsx:106-114 | The blob URLs stored by a list of uploads are those of its first upload, if that was accepted, joined with those of the rest. |
| Cloud.RunAppend | src/components/manage-users-dialog.tsx:68-93 | Issuing two call lists one after the other has the effect of issuing their concatenation. |
| Cloud.UploadEffect | src/components/lightbox-dialog.tsx:112-115 | An accepted upload adds its blob URL, and a refused one changes nothing. |
| Cloud.DeleteBlobsEffect | src/app/api/upload/route.ts:52-54 | The blob DELETE request removes its URLs only when the request goes through, the token is set and `del` succeeds. |
| Cloud.DeleteVariantEffect | src/components/lightbox-dialog.tsx:160-162 | A variant delete that goes through removes exactly that variant. |
| Cloud.AddPhotoEffect | src/components/photo-folio-app.tsx:255-259 | A photo add that goes through appends a fresh document with the server time. |
| Cloud.DeletePhotoEffect | src/components/photo-folio-app.tsx:374 | A photo delete that goes through removes exactly that photo. |
| Cloud.DeleteCollectionEffect | src/components/photo-folio-app.tsx:379 | A collection delete that goes through removes that collection document, and not its photos. |
| Cloud.RunWriteAfterReads | src/lib/user-store.ts:137-149 | Queries and hashes before a write change nothing, so only the write counts. |
| Cloud.RunInert | src/lib/user-store.ts:91-118 | A list of reads and failed calls leaves the store as it was. |
| Cloud.DroppedMembers | src/components/manage-users-dialog.tsx:83-89 | A photo survives the deletes of a set of ids exactly when it is not one of them. |
| Cloud.DeletedPhotos | src/components/photo-folio-app.tsx:372-376 | When no photo delete throws, the photos left are the old ones minus exactly the deleted ids of that collection. |
| Cloud.ClearedCollection | src/components/manage-users-dialog.tsx:75-89 | Deleting every listed photo of a collection leaves no photo of it. |
| Cloud.UsersUntouched | src/components/manage-users-dialog.tsx:58-111 | Calls that do not write users leave the users table unchanged. |
| Cloud.CollectionKept | src/components/manage-users-dialog.tsx:68-93 | A collection that no call deletes is still there afterwards. |
| Cloud.WithoutUserSub | src/lib/user-store.ts:176 | Deleting a user document keeps only other records of the table, and keeps the ids distinct. |
| Cloud.WithoutCollectionSub | src/components/manage-users-dialog.tsx:92 | Deleting a collection document keeps only other documents of the table, and keeps the ids distinct. |
| Cloud.ApplyValid | src/lib/user-store.ts:50-60 | Every write that goes through keeps ids below the counter and distinct in the users and collections tables. |
| Cloud.EffectValid | src/lib/user-store.ts:50-60 | Any call, failing, reading or writing, keeps the store valid. |
| Cloud.RunValid | src/components/manage-users-dialog.tsx:58-126 | Any list of calls keeps the store valid, so every handler's trace does. |
| Cloud.EffectOnlyDrops | src/components/manage-users-dialog.tsx:68-93 | A call that adds and retitles nothing adds no collection and no photo. |
| Cloud.RunOnlyDrops | src/components/manage-users-dialog.tsx:68-114 | After calls that only query and delete, every collection and photo left was already there. |
| UserStore.FirstNamed | src/lib/user-store.ts:101 | `docs[0]` of a name query: the index of the first record with that name, or None when no record has it. |
| UserStore.NamedHead | src/lib/user-store.ts:96-101 | The query is non-empty exactly when there is a first record of that name, and its `docs[0]` is that record. |
| UserStore.NamedAppend | src/lib/user-store.ts:60 | A name query over two tables is the query over each, concatenated. |
| UserStore.FirstNamedSameNames | src/lib/user-store.ts:204-219 | Tables with the same names position by position find the same first record. |
| UserStore.AuthenticateSound | src/lib/user-store.ts:85-118 | A user is answered only for the first record of the lowered name, whose hash is that of the password, and the answer is that record's id and name. |
| UserStore.AuthenticateComplete | src/lib/user-store.ts:85-118 | With unique names, a record of the lowered name whose hash matches the password is answered. |
| UserStore.GetUsers | src/lib/user-store.ts:75-83 | With no database it throws and makes no call. Otherwise it makes one `getDocs` and fails exactly when that throws. On success it returns every record's id and name, in table order. |
| UserStore.ValidateUser | src/lib/user-store.ts:85-123 | It issues exactly the calls of `ValidateSpec` and answers its result. |
| UserStore.ValidateReadsOnly | src/lib/user-store.ts:85-123 | Validation only reads. It fails only with the no-database or the database-error message, and the no-database error exactly without a database. A success answers `Authenticate`. With nothing faulted it succeeds. |
| UserStore.AddUser | src/lib/user-store.ts:126-156 | The reply and calls are those of `AddUserSpec`, and the store is their effect. |
| UserStore.AddUserUnchangedOnFailure | src/lib/user-store.ts:152-155 | A refused or failed sign-up leaves the store unchanged. |
| UserStore.AddUserRequiresFields | src/lib/user-store.ts:131-133 | An empty name or missing/empty password is refused with "Name and password are required." before any call. |
| UserStore.AddUserDuplicate | src/lib/user-store.ts:137-142 | An existing (lowered) name is refused with the duplicate message and nothing is written. |
| UserStore.AddUserKeepsUniqueNames | src/lib/user-store.ts:137-149 | Because a taken (lowered) name is refused, a sign-up keeps the names of the users table unique, whatever its outcome. |
| UserStore.AddedAuthenticates | src/lib/user-store.ts:146-149 | A record added for an unused name lets exactly that name and password log in. |
| UserStore.AddUserSuccess | src/lib/user-store.ts:126-156 | Sign-up succeeds if and only if there is a database, both fields are given, the lowered name is unused and no call throws. The store then gains exactly one new record under a fresh id, and that name and password log in. |
| UserStore.RemoveUser | src/lib/user-store.ts:159-183 | The reply and calls are those of `RemoveUserSpec`, and the store is their effect. |
| UserStore.RemoveUserKeepsUniqueNames | src/lib/user-store.ts:159-183 | With unique names and ids, removing a user keeps the names unique. |
| UserStore.UpdatePasswordKeepsUniqueNames | src/lib/user-store.ts:185-229 | Changing a password keeps the names unique: it rewrites only a hash. |
| UserStore.RemoveUserUnchangedOnFailure | src/lib/user-store.ts:171-182 | A refused or failed removal leaves the store unchanged. |
| UserStore.RemoveStarRefused | src/lib/user-store.ts:162-164 | Any casing of `star` is refused before any call. |
| UserStore.RemoveUnknownUser | src/lib/user-store.ts:168-173 | An absent name is answered "User not found." and nothing is written. |
| UserStore.WithoutUserAt | src/lib/user-store.ts:175-176 | With a unique id, deleting that id removes exactly that record. |
| UserStore.WithoutAbsent | src/lib/user-store.ts:175-176 | Deleting an id no record carries changes nothing. |
| UserStore.RemoveUserSuccess | src/lib/user-store.ts:159-183 | Removal succeeds if and only if there is a database, the name is not `star`, a record of the name exists and neither call throws. Exactly the first such record is then removed. |
| UserStore.UpdateUserPassword | src/lib/user-store.ts:185-229 | The reply and calls are those of `UpdatePasswordSpec`, and the store is their effect. |
| UserStore.UpdatePasswordUnchangedOnFailure | src/lib/user-store.ts:200-228 | A refused or failed password change leaves the store unchanged. |
| UserStore.RehashedAuthenticates | src/lib/user-store.ts:217-219 | After the first record of the name is rehashed, the new password logs in as that user. |
| UserStore.UpdatePasswordSuccess | src/lib/user-store.ts:185-229 | The change succeeds if and only if there is a database, a record of the name with a hash exists, the old password matches it, and none of the four calls throws. |
| UserStore.UpdatePasswordCalls | src/lib/user-store.ts:196-219 | A successful change issues query, compare, hash, then the hash update of that record, and the update goes through. |
| UserStore.RehashOne | src/lib/user-store.ts:218-219 | With distinct ids, rehashing record k changes only its hash. |
| UserStore.UpdatePasswordRun | src/lib/user-store.ts:196-219 | A successful change has the effect of rewriting the hash of the first record of the lowered name, and nothing else. |
| UserStore.UpdatePasswordStore | src/lib/user-store.ts:217-221 | A successful change rewrites only that record's hash, touches no other table, and the new password then logs in. |
| UserStore.HashesUntilFailure | src/lib/user-store.ts:52-53 | The seeding loop hashes the passwords in order and stops at the first that throws. |
| UserStore.SeedEntries | src/lib/user-store.ts:52-58 | One batch entry per default user: the lowered name and the hash of the password. |
| UserStore.HashOne | src/lib/user-store.ts:53-58 | One loop turn hashes one password, reports whether it threw, and builds its entry without writing. |
| UserStore.HashBatch | src/lib/user-store.ts:52-59 | The loop issues exactly the hashes up to the first failure, writes nothing, and on success yields every entry. |
| UserStore.InitializeDefaultUsers | src/lib/user-store.ts:32-66 | The calls are `SeedCalls` of the old state, and the store is their effect. |
| UserStore.SeedNonEmpty | src/lib/user-store.ts:42 | With any user present, seeding changes nothing. |
| UserStore.DefaultEntries | src/lib/user-store.ts:44-58 | The default names are already lower case, so each entry carries the name as written. |
| UserStore.DefaultRecords | src/lib/user-store.ts:44-60 | The batch creates `isabella`, `studio` and `star` with consecutive ids and their hashes. |
| UserStore.SeedCallsOnEmpty | src/lib/user-store.ts:38-60 | On an empty table with nothing failing, seeding lists, hashes the three passwords, then commits. |
| UserStore.FirstSeedStore | src/lib/user-store.ts:38-60 | On an empty table with nothing failing, seeding appends the three records and advances the id counter by three. |
| UserStore.SeedOnEmpty | src/lib/user-store.ts:32-72 | On an empty table seeding writes exactly the three default users and nothing else, with distinct names and distinct ids, and seeding again changes nothing. |
| Session.LocalStorage.GetItem | src/app/page.tsx:12 | It throws when storage is unavailable. Otherwise it answers the stored value, and null exactly when the key is absent. |
| Session.LocalStorage.SetItem | src/components/login-form.tsx:38-39 | Stores the value when available, otherwise throws and leaves the items unchanged. |
| Session.LocalStorage.RemoveItem | src/components/photo-folio-app.tsx:91-92 | Removes the key when available, otherwise throws and leaves the items unchanged. |
| Session.LocalStorage.ReadFlag | src/app/page.tsx:12 | It throws exactly when storage is unavailable. Otherwise the flag is true exactly when `isAuthenticated` is the string "true". |
| Home.Open | src/app/page.tsx:10-22 | The page shows the loading screen. It goes to `/folio` exactly when the flag was read and is true, and to `/login` otherwise, including when reading threw. |
| Home.Mount | src/app/page.tsx:7-30 | Mounting `/` goes to `/folio` exactly when storage is available and signed in. |
| LoginForm.Form.HandleSubmit | src/components/login-form.tsx:29-56 | It issues the validation calls. A matching user stores the flag and `{"name":...}` and goes to `/folio`; a failure to store is caught as a login failure. No match shows the invalid-credentials message. A thrown error shows "Login failed: " plus its message and a destructive toast. The submitting state is always cleared. |
| LoginForm.LoginSetsFlag | src/components/login-form.tsx:38-39 | After a login's two writes the session reads as signed in. |
| SignupForm.Form.HandleSubmit | src/components/signup-form.tsx:29-63 | A password whose JavaScript `length` (UTF-16 code units, `Text.JsLength`) is below 6 is refused before any call. Otherwise it issues `addUser`'s calls. Success toasts and goes to `/login`; a refusal shows the directory's message. |
| PasswordDialog.Dialog.HandleSave | src/components/change-password-dialog.tsx:37-80 | A mismatch, then a password whose `length` (UTF-16 code units) is below 6, is refused without a call. Otherwise it issues `updateUserPassword`'s calls. Success closes the dialog, clears the three fields and toasts; a refusal shows the message and keeps the fields. |
| PasswordDialog.Dialog.HandleOpenChange | src/components/change-password-dialog.tsx:83-91 | Closing clears the fields and the error; opening keeps them. |
| CreateDialog.Dialog.HandleCreate | src/components/create-collection-dialog.tsx:29-35 | A blank title creates nothing and keeps the dialog. Otherwise `onCreate` gets the trimmed title, the field is cleared and the dialog closes. |
| CreateDialog.DisabledIffBlank | src/components/create-collection-dialog.tsx:66 | The Create button is disabled exactly when the handler would create nothing. |
| EditTitleDialog.Dialog.OpenEffect | src/components/edit-photo-title-dialog.tsx:31-35 | Opening resets the field to the initial title; while closed the field is kept. |
| EditTitleDialog.Dialog.HandleSave | src/components/edit-photo-title-dialog.tsx:37-42 | A blank title saves nothing. Otherwise `onSave` gets the trimmed title and the dialog closes. |
| EditTitleDialog.EnterSavesUnchanged | src/components/edit-photo-title-dialog.tsx:63-71 | With the title unchanged the Save button is disabled, yet Enter still saves the same title. |
| Uploader.ImageFiles | src/components/photo-uploader.tsx:21-23 | The filter keeps only `image/` files and is never longer than its input. |
| Uploader.ImageFilesAppend | src/components/photo-uploader.tsx:21-23 | Filtering distributes over concatenation. |
| Uploader.ImageFilesMembers | src/components/photo-uploader.tsx:21-23 | A file is kept if and only if it was given and is an image. |
| Uploader.ImageFilesOfImages | src/components/photo-uploader.tsx:21-23 | A list of images passes the filter whole. |
| Uploader.HandleFiles | src/components/photo-uploader.tsx:17-37 | No files or an empty list is ignored. A list with no image gives the "no images" outcome. Otherwise `onUpload` gets exactly the image files, which are never empty. |
| Uploader.Notice | src/components/photo-uploader.tsx:25-32 | A toast is shown exactly for the no-images outcome. |
| Uploader.DropZone.DragOver | src/components/photo-uploader.tsx:39-43 | Dragging over sets the dragging flag. |
| Uploader.DropZone.DragLeave | src/components/photo-uploader.tsx:45-49 | Leaving clears it. |
| Uploader.DropZone.Drop | src/components/photo-uploader.tsx:51-59 | A drop clears the flag and handles the dropped files. |
| Uploader.DropZone.Paste | src/components/photo-uploader.tsx:61-66 | A paste handles the pasted files. |
| Preview.Previews | src/components/photo-upload-preview-dialog.tsx:52-62 | One preview per file, in order, with an empty title. |
| Preview.PreviewFiles | src/components/photo-upload-preview-dialog.tsx:107-108 | The files of the previews, in order. |
| Preview.Retitled | src/components/photo-upload-preview-dialog.tsx:70-74 | `handleTitleChange` changes the title at that index, if any, and nothing else. |
| Preview.PreviewsKeepFiles | src/components/photo-upload-preview-dialog.tsx:52-74 | Any sequence of title edits keeps the files as given. |
| Preview.EditsKeepFiles | src/components/photo-upload-preview-dialog.tsx:70-74 | Title edits never change which files are previewed. |
| Preview.TitleCalls | src/components/photo-upload-preview-dialog.tsx:84-104 | At most one title generation per preview. |
| Preview.GeneratorOnlyForBlank | src/components/photo-upload-preview-dialog.tsx:86-91 | A file's title is generated if and only if its typed title is blank. |
| Preview.Fallbacks | src/components/photo-upload-preview-dialog.tsx:92-100 | At most one fallback toast per preview. |
| Preview.UploadCalls | src/components/photo-upload-preview-dialog.tsx:106-114 | One upload per file, in order. |
| Preview.UploadsStore | src/components/photo-upload-preview-dialog.tsx:106-114 | The uploads add exactly the accepted files' blob URLs and change nothing else. |
| Preview.FirstRefused | src/components/photo-upload-preview-dialog.tsx:106-114 | Gives the first refused upload, and None exactly when every upload is accepted. |
| Preview.ErrorText | src/components/photo-upload-preview-dialog.tsx:119-131 | A non-Error gives the unknown-error text. JSON with a truthy `error` gives it; other JSON gives the server-error prefix plus the message; otherwise the raw message. |
| Preview.Dialog.SetFiles | src/components/photo-upload-preview-dialog.tsx:52-62 | New files replace the previews. |
| Preview.Dialog.HandleTitleChange | src/components/photo-upload-preview-dialog.tsx:70-74 | The previews become `Retitled`. |
| Preview.Dialog.HandleOpenChange | src/components/photo-upload-preview-dialog.tsx:144 | While processing, open changes are ignored. |
| Preview.Dialog.HandleConfirm | src/components/photo-upload-preview-dialog.tsx:76-141 | It generates titles, then uploads every file, and the store gains exactly the accepted blobs. It confirms exactly when every upload is accepted: one photo per preview with its URL and final title, and the dialog closes. Otherwise it reports the first refusal's text and keeps the dialog open. |
| Lightbox.FileStep | src/components/lightbox-dialog.tsx:111-122 | One file's upload and variant add have the effect `FileAfter`. |
| Lightbox.UploadsRun | src/components/lightbox-dialog.tsx:111-124 | All the files' calls have the effect `AfterUploads`. |
| Lightbox.SavedUrls | src/components/lightbox-dialog.tsx:111-124 | At most one saved variant URL per file. |
| Lightbox.NewVariants | src/components/lightbox-dialog.tsx:117-121 | One new variant document per saved URL. |
| Lightbox.NewVariantsAt | src/components/lightbox-dialog.tsx:117-121 | The i-th new variant has the i-th fresh id and URL. |
| Lightbox.UploadsStore | src/components/lightbox-dialog.tsx:111-124 | Uploading variants appends exactly the saved ones, adds exactly the accepted blobs and consumes one id per saved variant. |
| Lightbox.UploadsFrame | src/components/lightbox-dialog.tsx:111-124 | Uploading variants touches only variants, blobs and the id counter. |
| Lightbox.UploadsBlobs | src/components/lightbox-dialog.tsx:111-115 | The blobs gained are exactly the accepted uploads' URLs. |
| Lightbox.UploadsVariants | src/components/lightbox-dialog.tsx:117-121 | The variants gained are exactly those of the saved URLs. |
| Lightbox.DeleteNeedsAll | src/components/lightbox-dialog.tsx:145 | No call is made exactly when the variant, the photo, the collection or the database is missing. |
| Lightbox.DeleteBlobFirst | src/components/lightbox-dialog.tsx:147-162 | The blob request for the variant's URL comes first, then at most the document delete. |
| Lightbox.DeleteAbortsOnBlobFailure | src/components/lightbox-dialog.tsx:149-157 | A blob request that throws or answers not-ok shows the error toast and changes nothing. |
| Lightbox.DeleteRemovesOnlyThatVariant | src/components/lightbox-dialog.tsx:147-167 | After an ok blob answer, the blob is gone and only that variant document is removed. The "Variant deleted" toast appears exactly when that delete went through. |
| Lightbox.UploadOne | src/components/lightbox-dialog.tsx:111-122 | One file's upload, then its variant add, reporting whether both went through. |
| Lightbox.UploadEach | src/components/lightbox-dialog.tsx:111-124 | It issues every file's calls and reports success exactly when every file was saved. |
| Lightbox.Dialog.HandleUpload | src/components/lightbox-dialog.tsx:100-142 | Without a photo, a collection or a database (`Ready`), nothing happens. Otherwise every file's calls are issued and the store is `AfterUploads`. The toasts are "Uploading variants..." then complete or failed, according to whether every file was saved. The uploading state is cleared. |
| Lightbox.Dialog.HandleDeleteVariant | src/components/lightbox-dialog.tsx:144-178 | The notice and calls are `DeleteSpec`. The pending variant is cleared whenever the handler got past its guard. |
| Lightbox.AppLightboxInert | src/components/photo-folio-app.tsx:555-560 | As written the app passes no photo and no collection id, so the dialog renders nothing and neither handler gets past its guard. |
| Lightbox.IntendedLightboxWorks | src/components/lightbox-dialog.tsx:46-58 | Given the clicked photo and its collection id, the dialog renders it, both handlers pass their guard with a database, and a variant delete starts with that variant's blob request. |
| Folio.Insert | src/components/photo-folio-app.tsx:170-175 | Insertion keeps every element and adds one. |
| Folio.Sort | src/components/photo-folio-app.tsx:170-175 | The sort is a permutation of its input. |
| Folio.InsertNewestFirst | src/components/photo-folio-app.tsx:170-175 | Inserting into a newest-first list keeps it newest-first. |
| Folio.SortNewestFirst | src/components/photo-folio-app.tsx:189-194 | The `b - a` comparator orders newest first. |
| Folio.FirstIndex | src/components/photo-folio-app.tsx:316 | `find`: the first index satisfying the test, or None when none does. |
| Folio.LoadSkipped | src/components/photo-folio-app.tsx:143-146 | The load is skipped, with no call, exactly when there is no database or no user name. |
| Folio.LoadReadsOnly | src/components/photo-folio-app.tsx:142-212 | Loading never changes the store. |
| Folio.LoadedNewestFirst | src/components/photo-folio-app.tsx:154-197 | A loaded folio holds exactly the user's collections, newest first. Each has a permutation of its photos, newest first. |
| Folio.GatheredMember | src/components/photo-folio-app.tsx:157-186 | Each shown collection is the user's and has exactly its own photos. |
| Folio.GatheredShown | src/components/photo-folio-app.tsx:157-194 | Every queried collection is shown. |
| Folio.AddCalls | src/components/photo-folio-app.tsx:253-261 | One photo add per new photo, in order, with its URL and title. |
| Folio.Kept | src/components/photo-folio-app.tsx:253-261 | The photos whose add went through. |
| Folio.NewPhotoDocs | src/components/photo-folio-app.tsx:255-259 | One new photo document per kept photo. |
| Folio.NewPhotoDocsAt | src/components/photo-folio-app.tsx:255-259 | The i-th new document has the i-th fresh id, URL and title. |
| Folio.KeptAll | src/components/photo-folio-app.tsx:253-261 | With no add failing, every photo is kept. |
| Folio.AddsRun | src/components/photo-folio-app.tsx:253-261 | The adds have the effect `AfterAdds`. |
| Folio.AddsFrame | src/components/photo-folio-app.tsx:253-261 | Adding photos touches only the photos and the id counter. |
| Folio.AddsPhotos | src/components/photo-folio-app.tsx:253-261 | The photos gained are exactly the kept ones. |
| Folio.AddedPhotos | src/components/photo-folio-app.tsx:253-261 | Adding photos appends one document per kept photo and changes nothing else. |
| Folio.ResponseIgnored | src/components/photo-folio-app.tsx:364-368 | The delete's calls and toast do not depend on the blob route's answer. |
| Folio.CollectionDeleteShape | src/components/photo-folio-app.tsx:360-380 | After the blob request (if any), every photo delete is issued. The collection delete follows only if none of them threw. |
| Folio.CollectionBlobRequest | src/components/photo-folio-app.tsx:362-369 | Exactly one blob request, first, and only for a non-empty photo list; if it throws nothing else is issued. |
| Folio.CollectionDocsLast | src/components/photo-folio-app.tsx:371-379 | The photo deletes sit between the blob request and the collection delete, which is last. |
| Folio.CollectionDeleteStore | src/components/photo-folio-app.tsx:356-393 | Deleting a collection never touches users, variants or the id counter. The collection is gone exactly when the success toast appears. |
| Folio.DeletesOnlyPhotos | src/components/photo-folio-app.tsx:372-376 | Photo deletes touch only the photos table. |
| Folio.PhotoDeleteStore | src/components/photo-folio-app.tsx:395-422 | A photo delete issues the blob request, then the document delete unless the request threw. The blob is gone only on an ok answer; the document is gone, with the success toast, exactly when both calls went through. |
| Folio.PhotoRequestFromFirstHolder | src/components/photo-folio-app.tsx:326-351 | The request names the photo in the first collection holding that id, with its URL and title. No earlier collection holds it. |
| Folio.RetitleCollectionOnly | src/components/photo-folio-app.tsx:431-442 | The rename fails exactly when faulted or the collection is gone. Otherwise only that collection's title changes. |
| Folio.RetitlePhotoOnly | src/components/photo-folio-app.tsx:448-459 | The rename fails exactly when faulted or the photo is gone. Otherwise only that photo's title changes. |
| Folio.LogoutClearsSession | src/components/photo-folio-app.tsx:89-93 | After removing both keys the session is no longer signed in and no user is stored. |
| Folio.DeleteCollectionFlow | src/components/photo-folio-app.tsx:356-393 | It issues exactly `CollectionDeleteSpec`'s calls and shows its toast. |
| Folio.DeletePhotoFlow | src/components/photo-folio-app.tsx:395-422 | It issues exactly `PhotoDeleteSpec`'s calls and shows its toast. |
| Folio.HandleLogout | src/components/photo-folio-app.tsx:89-102 | With storage available, both keys are removed and the app goes to `/login`. Otherwise nothing changes and the "Logout failed" toast appears. |
| Folio.App.Load | src/components/photo-folio-app.tsx:142-212 | It makes exactly the load calls and never writes. A load replaces the collections and clears loading. A listener error toasts and clears loading. A photo query that throws inside the snapshot leaves loading set. |
| Folio.App.HandleCreateCollection | src/components/photo-folio-app.tsx:214-233 | One collection add for the user, with the created toast or the error toast. |
| Folio.App.HandleInitiateUpload | src/components/photo-folio-app.tsx:235-238 | Sets the active collection and the files to preview. |
| Folio.App.ClosePreview | src/components/photo-folio-app.tsx:511-516 | Closing the preview clears both. |
| Folio.App.HandleAddImagesToCollection | src/components/photo-folio-app.tsx:240-276 | Without a collection, nothing happens. Otherwise every add is issued. The toasts are "Saving to collection..." then complete or failed, according to whether every add went through. |
| Folio.App.ConfirmPreview | src/components/photo-folio-app.tsx:518-522 | Confirmed photos are added to the active collection, if there is one. |
| Folio.App.HandlePaste | src/components/photo-folio-app.tsx:278-303 | With no collection, the "No collection found" toast appears. A paste is taken over exactly when collections exist and images were pasted; the first collection and the images are then set for preview. |
| Folio.App.HandleDeleteCollection | src/components/photo-folio-app.tsx:312-324 | The pending request names the collection with the photos of the first collection of that id, or none. |
| Folio.App.HandleDeletePhoto | src/components/photo-folio-app.tsx:326-351 | The pending request is the first holder's photo request; with no holder it is unchanged. |
| Folio.App.CancelDelete | src/components/photo-folio-app.tsx:526-530 | Closing the confirmation clears the request. |
| Folio.App.HandleConfirmDelete | src/components/photo-folio-app.tsx:353-425 | The toast and calls are `ConfirmDeleteSpec` of the pending request, which is then cleared. |
| Folio.App.OpenEditCollection | src/components/photo-folio-app.tsx:427-429 | Sets the collection being edited. |
| Folio.App.OpenEditPhoto | src/components/photo-folio-app.tsx:444-446 | Sets the photo being edited, with its collection id. |
| Folio.App.HandleUpdateCollectionTitle | src/components/photo-folio-app.tsx:431-442 | Without an edited collection or a database, nothing happens. Otherwise one update is made: success toasts and closes the editor; failure toasts and keeps it open. |
| Folio.App.HandleUpdatePhotoTitle | src/components/photo-folio-app.tsx:448-459 | The same for the edited photo. |
| ManageUsers.TruthySrcs | src/components/manage-users-dialog.tsx:78-86 | Only truthy `src` values are kept, at most one per photo. |
| ManageUsers.TruthySrcsMembers | src/components/manage-users-dialog.tsx:78-86 | A URL is collected if and only if it is non-empty and some listed photo has it. |
| ManageUsers.StepCalls | src/components/manage-users-dialog.tsx:68-93 | One collection's turn makes only photo queries and photo or collection deletes, and none of them on another collection. |
| ManageUsers.CascadeBeforeRemoval | src/components/manage-users-dialog.tsx:68-93 | The loop's calls precede the removal. |
| ManageUsers.QuietUsers | src/components/manage-users-dialog.tsx:58-111 | Nothing before `removeUser` touches the users table. |
| ManageUsers.CascadeCalls | src/components/manage-users-dialog.tsx:67-93 | The whole loop makes only photo queries and photo or collection deletes. |
| ManageUsers.CascadeAvoids | src/components/manage-users-dialog.tsx:67-93 | The loop never deletes a collection it was not given. |
| ManageUsers.PhotosBeforeCollection | src/components/manage-users-dialog.tsx:71-92 | A collection delete is issued if and only if its photo query and every photo delete went through. It is then the turn's last call, and by then no photo of it remains. |
| ManageUsers.ThenAssoc | src/components/manage-users-dialog.tsx:67-93 | Chaining loop progress is associative. |
| ManageUsers.StepCompletes | src/components/manage-users-dialog.tsx:68-93 | With nothing faulted, one loop turn succeeds and ends with the delete of its collection document. |
| ManageUsers.CascadeCompletes | src/components/manage-users-dialog.tsx:67-93 | With nothing faulted, the loop succeeds and issues the delete of every one of the user's collections (the calls; `CascadeClears` and `OwnDataRemoved` state the store). |
| ManageUsers.StepClears | src/components/manage-users-dialog.tsx:68-93 | With nothing faulted, after one loop turn neither the collection document nor any photo of it is left. |
| ManageUsers.CascadeClears | src/components/manage-users-dialog.tsx:67-93 | With nothing faulted, after the loop no collection it was given, and no photo of one, is left. |
| ManageUsers.RemovalCalls | src/lib/user-store.ts:159-183 | `removeUser` only queries and deletes user documents. |
| ManageUsers.FinishCalls | src/components/manage-users-dialog.tsx:95-114 | The finish issues the blob request first, exactly when URLs were collected, then only the removal's calls. |
| ManageUsers.OneBlobRequestAtMost | src/components/manage-users-dialog.tsx:95-101 | At most one blob request, right after the loop. It is made exactly when the loop succeeded with URLs, and it carries all of them. |
| ManageUsers.BlobFailureContinues | src/components/manage-users-dialog.tsx:102-114 | A not-ok blob answer adds "Partial Failure" and the removal still follows. |
| ManageUsers.FailureStopsEverything | src/components/manage-users-dialog.tsx:127-133 | A thrown query, loop step or blob request shows only "Removing User..." and "Error". No follow-up happens and no user is removed. |
| ManageUsers.OtherOwnersKept | src/components/manage-users-dialog.tsx:59-93 | Other users' collections survive the deletion. |
| ManageUsers.StarFinish | src/lib/user-store.ts:162-164 | For `star` the finish issues only the blob request, yet still toasts "User Removed" and follows up. |
| ManageUsers.NoFaultDeletesAll | src/components/manage-users-dialog.tsx:58-126 | With nothing faulted, the delete of every collection of the user is issued, and the call order is query, loop, then finish. |
| ManageUsers.OwnDataRemoved | src/components/manage-users-dialog.tsx:58-126 | With nothing faulted, after the whole handler the store holds no collection of the user and no photo of any collection the user had. |
| ManageUsers.UserCollectionsAfter | src/components/manage-users-dialog.tsx:58-126 | In a valid store with nothing faulted, an old collection is still there afterwards exactly when it belongs to another user. |
| ManageUsers.StarRecordStays | src/components/manage-users-dialog.tsx:113-114 | Removing `star` leaves the users table unchanged. |
| ManageUsers.StarIsCascaded | src/components/manage-users-dialog.tsx:50-126 | `star`'s collections are deleted, so none of them is left in the store, and "User Removed" is shown, but the `star` record stays. |
| ManageUsers.CollectionTurn | src/components/manage-users-dialog.tsx:68-93 | One loop turn issues exactly `CollectionStep`'s calls. |
| ManageUsers.CascadeEach | src/components/manage-users-dialog.tsx:67-93 | The loop issues exactly `Cascade`'s calls. |
| ManageUsers.Finish | src/components/manage-users-dialog.tsx:95-126 | The finish issues exactly `FinishSpec`'s calls. |
| ManageUsers.Dialog.SelectUser | src/components/manage-users-dialog.tsx:171 | Sets the user to delete. |
| ManageUsers.Dialog.CancelDelete | src/components/manage-users-dialog.tsx:143 | Clears it. |
| ManageUsers.Dialog.HandleConfirmDelete | src/components/manage-users-dialog.tsx:50-137 | Without a user or a database nothing happens. Otherwise the toasts, follow-up and calls are `DeleteUserSpec`, and the user to delete is cleared. |
| FolioGate.Gate | src/app/folio/page.tsx:13-25 | The page admits exactly a flag read as true and redirects to `/login` in every other case, a thrown read included. |
| FolioGate.FolioPage.RunEffect | src/app/folio/page.tsx:13-25 | The state becomes whether storage is available and signed in; otherwise the page goes to `/login`. |
| FolioGate.FolioPage.Render | src/app/folio/page.tsx:27-40 | Loading before the check, nothing when refused, the app when admitted, always without a user name. |
| FolioGate.LogoutLocksGate | src/components/photo-folio-app.tsx:89-93 | After a logout the gate refuses. |
| FolioGate.LoginOpensGate | src/components/login-form.tsx:38-40 | After a login the gate admits. |
| FolioGate.LogoutThenRevisit | src/components/photo-folio-app.tsx:89-93 | Logging out then mounting `/folio` redirects to `/login` and renders nothing. |
| FolioGate.ConfirmUserRemoval | src/components/photo-folio-app.tsx:537-542 | Removing oneself runs `handleLogout`, which signs the session out. Any other outcome leaves the session alone. |
| FolioGate.ParseName | src/components/login-form.tsx:39 | A parsed name is one whose stored form is the stored text. |
| FolioGate.ParseNameRoundTrip | src/components/login-form.tsx:39 | The name a login stores reads back as that name. |
| FolioGate.StoredName | src/components/login-form.tsx:39 | A stored name is under `currentUser` in the login's format. |
| FolioGate.IntendedView | src/app/folio/page.tsx:40 | The corrected render gives the app the stored name. |
| FolioGate.AppWithoutName | src/app/folio/page.tsx:40 | As written, the admitted app's load is skipped with no call, and deleting oneself never logs out. |
| FolioGate.IntendedAppHasName | src/app/folio/page.tsx:40 | With the stored name passed, after a login the app loads that user's collections, and removing that user logs out. |

## Left out

- Salting and `SALT_ROUNDS` are not modelled. A hash is `Digest(password)` and `bcrypt.compare` is equality with it.
- The catch branches of the signup form and the change-password dialog are dead code. `addUser` and `updateUserPassword` catch every error and return a reply, so their handlers never throw into these branches. The branches are not modelled.
- `onSnapshot` listeners (the app's collections, the lightbox variants) are modelled as one read at mount. Later snapshots and unsubscribing are not modelled. The lightbox variant list itself is not modelled.
- `orderBy("createdAt")` and the order of query results are modelled as table order.
- Document ids are fresh numbers from a counter, not random strings. Server timestamps are `env.now`.
- `toLowerCase` is ASCII-only here, and `trim` uses the ECMAScript white-space set.
- `JSON.stringify({ name })` is modelled without escaping the name.
- `removeUser` in the manage-users dialog is not awaited. It is modelled as its calls following the blob request in order, and its reply is ignored, as in the code.
- The dialog's user list (`setUsers(getUsers())`) is not modelled. It receives a promise rather than a list, and the refresh is modelled only as the `RefreshList` follow-up value.
- Toast descriptions are omitted; only titles and the destructive variant are modelled. An absent message is the empty string.
- `Promise.all` fan-outs are modelled as their calls made one after the other. Every item is issued, and the whole fails if any item fails.
- Object URLs, `FileReader` and the data URI given to the title generator are not modelled. The generator is `env.titleFor`.
- Folio.Sort: stability is not proved. Timestamps are always present, so the comparator's missing-timestamp branch (return 0) is not modelled.
- Folio.App.HandleCreateCollection: requires a configured database. Without one the app renders only the configuration alert (src/components/photo-folio-app.tsx:104-140), so no handler is reachable. The same holds for HandleAddImagesToCollection, ConfirmPreview and HandleConfirmDelete.
- Folio.App.HandleCreateCollection: a user name that is absent gives the error toast and no call. The real `addDoc` with `userName: undefined` rejects.
- Variants of a deleted photo or collection are left behind, as in the code. This is not listed as a finding.
- The empty `collectionId` string is modelled as None.
- Routing, rendering, the drag-and-drop DOM and the `photo-grid` view are not modelled.
- The AI title flow in src/ai/flows/generate-title-flow.ts is not part of this model; it is a call whose outcome comes from the environment.
- The `Lightbox` handlers are modelled as the component would run given a photo and a collection id. As the app is written it is never given them (see Findings).
- BlobRoute.Post: a readable body is passed to `handleUpload` untouched; its shape is not modelled, only whether `handleUpload` handles it.
- `Cloud.Valid` (ids distinct and below the counter) is proved preserved by every call; the empty store satisfies it trivially, and the seeded users are also proved distinct.
- `src/lib/firebase.ts` (the configuration check) is modelled only as `env.dbConfigured`.

## Findings

| source | as written | input that shows it | evidently intended | confidence | as-written member | corrected member |
|---|---|---|---|---|---|---|
| src/app/folio/page.tsx:40 | `<PhotoFolioApp />` is rendered without its required `userName` prop | any signed-in session: the app gets no user name, its load is skipped, no collection is listed, and removing oneself never logs out | pass the signed-in user's name read from `currentUser` | medium, not executed | FolioGate.AppWithoutName | FolioGate.IntendedAppHasName |
| src/components/photo-folio-app.tsx:555-560 | `<LightboxDialog>` is given `src` and `alt`, but its props are `photo` and `collectionId` (src/components/lightbox-dialog.tsx:46-58), so both are undefined and it returns null at line 181 | clicking any photo: no lightbox is shown, and no variant upload or delete can be reached | pass the clicked photo and its collection id | medium, not executed | Lightbox.AppLightboxInert | Lightbox.IntendedLightboxWorks |
