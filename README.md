# BDC landing: admin dashboard and catalogue rules

This project models the core of a Next.js storefront for a motorcycle
parts shop. The shop has a public landing page and catalogue, and an admin
dashboard backed by a hosted Postgres database and object storage. The
modelled parts are:

- **Admin tables** for spare parts (`repuestos`), cargo motorcycles
  (`motocargueros`) and hero banners. Each holds a list, a form, the row
  being edited and a dialog flag. Each turns its form into a record and
  back, and updates its list after a server action answers.
- **The two dashboard pages that keep products in browser memory**, and
  the image gallery with its multi-select.
- **The image field** of the admin forms, with its file checks.
- **The server actions:**
  - banners: list, create, update, delete, reorder;
  - public catalogue queries and counts;
  - storage: upload, delete, base URL.
- **The middleware** that guards the dashboard, and **the landing page's
  product tabs**.

The database is modelled as one `seq` of rows per table, in storage order.
Every answer of the database, the storage service, `confirm` and the clock
is a parameter. So is every number the browser parses or prints as a
float. React state becomes a class whose methods change its fields.

Modules:

- `Common`: nullable values, string truthiness and action results.
- `Numbers`: `parseInt` and integer `toString`.
- `Rows`: map-by-id and filter.
- `Ordering`: ORDER BY and LIMIT.
- `Records`: the table rows.
- `DashboardRepuestos`, `DashboardMotocargueros`, `DashboardBanner`: the
  admin tables.
- `LocalCatalog`: both in-memory pages.
- `Gallery`
- `Upload`: the image field.
- `StorageActions`, `BannerActions`, `PublicActions`: the server actions.
- `Middleware`
- `Tabs`

## Model

| member | source | states |
|---|---|---|
| Common.OrElse | src/components/dashboard/repuestos-table.tsx:93-99 | `o \|\| fallback` on a nullable string: the value when it is a non-empty string, the fallback for null and "" |
| Common.NullIfEmpty | src/components/dashboard/repuestos-table.tsx:54-61 | `s \|\| null`: "" becomes null, anything else is kept, and reading back with `\|\| ""` gives the typed string |
| Common.ResultOf | src/lib/actions/banner.ts:44-51 | an action's `{ success, error }`: success exactly when the write succeeded; a failure carries the backend's message; a success carries none |
| Common.FailureToast | src/components/dashboard/repuestos-table.tsx:73-74 | `toast.error(result.error \|\| fallback)`: always an error toast, with the action's message when it is non-empty, else the fallback |
| Numbers.NatToString | src/components/dashboard/repuestos-table.tsx:97 | decimal text of a natural number: non-empty, digits only, no leading zero, and it reads back as the number |
| Numbers.IntToString | src/components/dashboard/repuestos-table.tsx:97 | `toString` of an integer: a minus sign before the digits of a negative number |
| Numbers.DigitRun | src/components/dashboard/repuestos-table.tsx:59 | the length of the leading run of digits: all digits before it, and a non-digit (or the end) right after it |
| Numbers.ParseInt | src/components/dashboard/repuestos-table.tsx:59 | `parseInt` of decimal text: an optional sign, then the leading digits; NaN when there are none |
| Numbers.ParseIntText | src/components/dashboard/repuestos-table.tsx:59 | `parseInt(n.toString())` gives `n` back for every integer, and NaN for NaN |
| Rows.ReplaceMatching | src/components/dashboard/repuestos-table.tsx:67-71 | `rows.map(r => r.id === id ? patch(r) : r)`: same length; each row is patched exactly when its key is `id`, else kept in place |
| Rows.Filter | src/app/dashboard/gallery/page.tsx:51 | `rows.filter(keep)`: holds exactly the rows that pass, and is no longer than the input |
| Rows.Reject | src/components/dashboard/repuestos-table.tsx:110 | delete by id: holds exactly the rows whose key is not among the ids |
| Rows.ReplaceAbsent | src/components/dashboard/repuestos-table.tsx:67-71 | updating an id no row carries changes nothing |
| Rows.FilterConcat | src/components/dashboard/repuestos-table.tsx:110 | filtering keeps relative order: filtering a concatenation filters each part |
| Rows.FilterKeepsAll | src/app/dashboard/gallery/page.tsx:51 | a filter every row passes returns the list unchanged |
| Rows.FilterIdempotent | src/app/dashboard/gallery/page.tsx:51 | filtering twice is filtering once |
| Rows.RejectConcat | src/components/dashboard/repuestos-table.tsx:110 | deleting from a concatenation deletes from each part, so the remaining rows keep their order |
| Rows.RejectAbsent | src/components/dashboard/repuestos-table.tsx:110 | deleting an id no row carries changes nothing |
| Rows.ReplaceKeepsUniqueKeys | src/app/dashboard/repuestos/page.tsx:91-95 | a patch that keeps ids keeps the ids distinct |
| Rows.FilterKeepsUniqueKeys | src/app/dashboard/repuestos/page.tsx:117 | filtering keeps the ids distinct |
| Rows.RejectKeepsUniqueKeys | src/app/dashboard/repuestos/page.tsx:117 | deleting by id keeps the ids distinct |
| Ordering.Insert | src/lib/actions/banner.ts:12 | inserting into an ordered list keeps it ordered and adds exactly that row |
| Ordering.SortBy | src/lib/actions/banner.ts:12 | `ORDER BY key`: ascending, and a permutation of the rows |
| Ordering.Take | src/lib/actions/public.ts:15 | `LIMIT n`: a prefix of length `min(n, length)` |
| Records.FormatPrice | src/components/dashboard/repuestos-table.tsx:132-138 | the price cell shows "-" exactly for null, NaN and zero, and otherwise formats that same amount (the same rule is at motocargueros-table.tsx:139-145) |
| DashboardRepuestos.Submitted | src/components/dashboard/repuestos-table.tsx:54-62 | the submitted record: empty description, image and category become null (never ""); an empty price becomes null and any other price is the parsed price; an empty stock becomes 0, else `parseInt`; name and active flag are copied |
| DashboardRepuestos.WithInput | src/components/dashboard/repuestos-table.tsx:69 | `{ ...r, ...data, updated_at }` keeps the id, featured flag and creation time and stamps the update time |
| DashboardRepuestos.LoadForm | src/components/dashboard/repuestos-table.tsx:90-101 | handleEdit's form: null text becomes "", a null stock shows "0", a null active flag shows checked |
| DashboardRepuestos.EditThenSubmit | src/components/dashboard/repuestos-table.tsx:90-101 | opening a row and saving it unchanged submits the row's own values (its stock back through `parseInt`, a null stock as 0) |
| DashboardRepuestos.SubmitThenEdit | src/components/dashboard/repuestos-table.tsx:54-62 | submitting a form and reopening the saved row shows the same text fields and flag, and the stock as parsed |
| DashboardRepuestos.RepuestosTable.constructor | src/components/dashboard/repuestos-table.tsx:36-48 | starts with the server's rows, a blank form, nothing edited, the dialog closed |
| DashboardRepuestos.RepuestosTable.ResetForm | src/components/dashboard/repuestos-table.tsx:118-130 | blank form, nothing edited, dialog closed, list untouched |
| DashboardRepuestos.RepuestosTable.OpenCreate | src/components/dashboard/repuestos-table.tsx:149 | the add button opens a blank create dialog |
| DashboardRepuestos.RepuestosTable.HandleSubmit | src/components/dashboard/repuestos-table.tsx:50-88 | sends the record built from the form; a successful update patches only the rows with the edited id; a failure or a create leaves the list as it was; a successful create reloads; the toasts; the form is reset in every case |
| DashboardRepuestos.RepuestosTable.HandleEdit | src/components/dashboard/repuestos-table.tsx:90-102 | loads the row into the form, marks it edited and opens the dialog |
| DashboardRepuestos.RepuestosTable.HandleDelete | src/components/dashboard/repuestos-table.tsx:104-116 | a declined confirm does nothing; a successful delete removes every row with that id and keeps the order of the rest; a failure changes nothing; the form is untouched |
| DashboardMotocargueros.SpecsOf | src/components/dashboard/motocargueros-table.tsx:55-58 | the specs object holds motor, carga and combustible exactly when the field is non-empty, with the typed value, and nothing else |
| DashboardMotocargueros.Submitted | src/components/dashboard/motocargueros-table.tsx:60-67 | empty description and image become null; an empty price becomes null and any other price is the parsed price; the specs are SpecsOf the form |
| DashboardMotocargueros.WithInput | src/components/dashboard/motocargueros-table.tsx:73 | the saved row keeps its id, featured flag and creation time and stores the specs object |
| DashboardMotocargueros.SpecField | src/components/dashboard/motocargueros-table.tsx:102-104 | `specs.key` exists exactly for a member of an object |
| DashboardMotocargueros.SpecsOrEmpty | src/components/dashboard/motocargueros-table.tsx:95 | `specs \|\| {}` changes no member lookup |
| DashboardMotocargueros.GetSpecs | src/components/dashboard/motocargueros-table.tsx:147-152 | an object (or array) is returned as it is; null and every other value give the empty specs |
| DashboardMotocargueros.GetSpecsKeepsFields | src/components/dashboard/motocargueros-table.tsx:147-152 | getSpecs neither hides nor invents a member |
| DashboardMotocargueros.LoadForm | src/components/dashboard/motocargueros-table.tsx:94-108 | handleEdit's form: null text and missing spec members become "", a null active flag shows checked |
| DashboardMotocargueros.SubmitThenEdit | src/components/dashboard/motocargueros-table.tsx:55-58 | submitting a form and reopening the saved row gives back the same form, specs included (only the price text depends on number formatting) |
| DashboardMotocargueros.EditThenSubmitSpecs | src/components/dashboard/motocargueros-table.tsx:95-104 | reopening a row and saving it keeps exactly its non-empty motor, carga and combustible members and drops any other member |
| DashboardMotocargueros.MotocargueroTable.constructor | src/components/dashboard/motocargueros-table.tsx:38-49 | starts with the server's rows, a blank form, nothing edited, the dialog closed |
| DashboardMotocargueros.MotocargueroTable.ResetForm | src/components/dashboard/motocargueros-table.tsx:124-137 | blank form, nothing edited, dialog closed, list untouched |
| DashboardMotocargueros.MotocargueroTable.OpenCreate | src/components/dashboard/motocargueros-table.tsx:163 | the add button opens a blank create dialog |
| DashboardMotocargueros.MotocargueroTable.HandleSubmit | src/components/dashboard/motocargueros-table.tsx:51-92 | as for spare parts: only a successful update changes the list, and only the edited id's rows; the form is reset in every case |
| DashboardMotocargueros.MotocargueroTable.HandleEdit | src/components/dashboard/motocargueros-table.tsx:94-108 | loads the row, specs included, into the form and opens the dialog |
| DashboardMotocargueros.MotocargueroTable.HandleDelete | src/components/dashboard/motocargueros-table.tsx:110-122 | a declined confirm does nothing; a successful delete removes the id's rows and keeps the order of the rest |
| DashboardBanner.Submitted | src/components/dashboard/banner-table.tsx:48-54 | empty title and subtitle become null; a new banner's position is the number of banners listed; an edited banner keeps its own |
| DashboardBanner.WithInput | src/components/dashboard/banner-table.tsx:60 | the saved banner takes the submitted image, title, subtitle, active flag and position, keeps its id, mobile image, show flags and creation time, and is stamped with the update time |
| DashboardBanner.LoadForm | src/components/dashboard/banner-table.tsx:81-90 | handleEdit's form: null title and subtitle become "", a null active flag shows checked |
| DashboardBanner.EditThenSubmit | src/components/dashboard/banner-table.tsx:81-90 | opening a banner and saving it unchanged sends its own image, texts and position |
| DashboardBanner.SubmitThenEdit | src/components/dashboard/banner-table.tsx:56-60 | saving a form onto a banner and opening that banner again shows the same form |
| DashboardBanner.SwitchedActive | src/components/dashboard/banner-table.tsx:108 | `!banner.is_active`: on exactly when the banner is not active (a null flag switches it on) |
| DashboardBanner.ActiveCount | src/components/dashboard/banner-table.tsx:132 | the number of active banners: at most the list's length, and 0 exactly when none is active |
| DashboardBanner.WithActive | src/components/dashboard/banner-table.tsx:112 | `{ ...b, is_active: newActive }`: the banner is active exactly when switched on, and every other column is kept |
| DashboardBanner.TwoActive | src/components/dashboard/banner-table.tsx:132 | more than one banner passes the active filter exactly when two different positions hold active banners |
| DashboardBanner.ShowsCarouselNote | src/components/dashboard/banner-table.tsx:280 | the carousel note shows exactly when two different banners of the list are active |
| DashboardBanner.SwitchShiftsActiveCount | src/components/dashboard/banner-table.tsx:106-118 | with distinct ids, switching one banner changes the active count by exactly that banner's change |
| DashboardBanner.BannerTable.constructor | src/components/dashboard/banner-table.tsx:32-37 | starts with the server's banners, a blank form, nothing edited, the dialog closed |
| DashboardBanner.BannerTable.ResetForm | src/components/dashboard/banner-table.tsx:121-130 | blank form, nothing edited, dialog closed, list untouched |
| DashboardBanner.BannerTable.OpenCreate | src/components/dashboard/banner-table.tsx:146 | the add button opens a blank create dialog |
| DashboardBanner.BannerTable.HandleSubmit | src/components/dashboard/banner-table.tsx:39-79 | without an image nothing is sent and nothing but an error toast happens; otherwise the record is sent, a successful update patches only the edited id's rows, and the form is reset |
| DashboardBanner.BannerTable.HandleEdit | src/components/dashboard/banner-table.tsx:81-90 | loads the banner into the form and opens the dialog |
| DashboardBanner.BannerTable.HandleDelete | src/components/dashboard/banner-table.tsx:92-104 | a declined confirm does nothing; a successful delete removes the id's rows and keeps the order of the rest |
| DashboardBanner.BannerTable.ToggleActive | src/components/dashboard/banner-table.tsx:106-119 | a successful update switches only the banners with that id and names the new state in the toast; a failure changes nothing and shows a fixed message |
| LocalCatalog.WithForm | src/app/dashboard/repuestos/page.tsx:93 | `{ ...p, ...formData }` keeps the entry's id |
| LocalCatalog.NewEntry | src/app/dashboard/repuestos/page.tsx:97-100 | a created entry carries the given id |
| LocalCatalog.FormOf | src/app/dashboard/repuestos/page.tsx:108-112 | handleEdit's form holds everything of the entry but its id: with the id it rebuilds the entry |
| LocalCatalog.EditThenSave | src/app/dashboard/repuestos/page.tsx:106-114 | editing an entry and saving it unchanged leaves it as it was |
| LocalCatalog.SaveThenEdit | src/app/dashboard/repuestos/page.tsx:106-114 | saving a form and editing the entry again shows the same form |
| LocalCatalog.MaxId | src/app/dashboard/repuestos/page.tsx:98 | the largest id of a non-empty list: one of its ids and no smaller than any |
| LocalCatalog.NextId | src/app/dashboard/repuestos/page.tsx:97-99 | the new id: one more than an existing id and larger than every id, and 1 for an empty list |
| LocalCatalog.JsMax2 | src/app/dashboard/repuestos/page.tsx:98 | `Math.max(a, b)` is one of its arguments |
| LocalCatalog.JsMax | src/app/dashboard/repuestos/page.tsx:98 | `Math.max(...xs)` is minus infinity exactly when every argument is (so for no argument at all) |
| LocalCatalog.JsPlusOne | src/app/dashboard/repuestos/page.tsx:98 | `x + 1` on a JavaScript number: one more for a finite number, minus infinity stays minus infinity |
| LocalCatalog.NextIdAsWritten | src/app/dashboard/repuestos/page.tsx:98 | the pages' `Math.max(...ids) + 1`: larger than every finite id, and minus infinity exactly when no id is finite (so for an empty list) |
| LocalCatalog.JsIds | src/app/dashboard/repuestos/page.tsx:98 | `products.map(p => p.id)` as JavaScript numbers, one per entry and in order |
| LocalCatalog.DuplicateIdAfterDeletingAll | src/app/dashboard/repuestos/page.tsx:97-99 | after deleting every entry, two creates in a row compute the same id (minus infinity) |
| LocalCatalog.AsWrittenAgreesWhenNotEmpty | src/app/dashboard/repuestos/page.tsx:97-99 | on a non-empty list the pages' `Math.max(...) + 1` is `NextId` |
| LocalCatalog.JsMaxOfIds | src/app/dashboard/repuestos/page.tsx:98 | `Math.max` of a non-empty list of ids is the largest id |
| LocalCatalog.InitialEntries | src/app/dashboard/repuestos/page.tsx:39-76 | each page starts with six entries numbered 1 to 6 (the motorcycles page at motos/page.tsx:39-76 likewise) |
| LocalCatalog.AppendFreshKeepsUniqueKeys | src/app/dashboard/repuestos/page.tsx:101 | appending an entry whose id is larger than every id keeps ids distinct |
| LocalCatalog.CatalogPage.constructor | src/app/dashboard/repuestos/page.tsx:39-86 | starts with the page's six entries (ids 1 to 6, distinct), a blank form and the dialog closed; the motorcycles page at motos/page.tsx:39-86 differs only in its entries |
| LocalCatalog.CatalogPage.ResetForm | src/app/dashboard/repuestos/page.tsx:120-124 | blank form, nothing edited, dialog closed |
| LocalCatalog.CatalogPage.OpenCreate | src/app/dashboard/repuestos/page.tsx:146 | the add button opens a blank create dialog |
| LocalCatalog.CatalogPage.HandleSubmit | src/app/dashboard/repuestos/page.tsx:88-104 | an edit rewrites name, description and image of the edited id's entries in place and keeps their ids; a create appends one entry whose id is `NextId`, the corrected rule (it differs from the source only on an empty list, see Findings); ids stay distinct; the form is reset |
| LocalCatalog.CatalogPage.HandleEdit | src/app/dashboard/repuestos/page.tsx:106-114 | copies the entry into the form and opens the dialog |
| LocalCatalog.CatalogPage.HandleDelete | src/app/dashboard/repuestos/page.tsx:116-118 | removes exactly the entries with that id, keeps the order of the rest and keeps ids distinct |
| Gallery.Toggled | src/app/dashboard/gallery/page.tsx:42-48 | an id is in the new selection exactly when it was in the old one or it is the toggled id, but not both; an unselected id is appended at the end |
| Gallery.ToggledKeepsDistinct | src/app/dashboard/gallery/page.tsx:42-48 | toggling keeps the selection free of repeats |
| Gallery.ToggleTwiceSameIds | src/app/dashboard/gallery/page.tsx:42-48 | toggling an id twice always restores the set of selected ids |
| Gallery.ToggleTwiceRestores | src/app/dashboard/gallery/page.tsx:42-48 | selecting an unselected id and unselecting it restores the selection exactly |
| Gallery.ToggleTwiceReorders | src/app/dashboard/gallery/page.tsx:42-48 | unselecting and reselecting a selected id moves it to the end: `[1, 2]` becomes `[2, 1]`, so exact restoration holds only for an unselected id |
| Gallery.InitialImagesNumbered | src/app/dashboard/gallery/page.tsx:22-36 | the page starts with thirteen images numbered 1 to 13 |
| Gallery.ShowsBulkDelete | src/app/dashboard/gallery/page.tsx:79 | the bulk-delete button is present exactly when some id is selected |
| Gallery.ToggleShowsBulkDelete | src/app/dashboard/gallery/page.tsx:42-48 | after a toggle of a selection without repeats, the bulk-delete button is present unless the only selected id was unselected |
| Gallery.GalleryPage.constructor | src/app/dashboard/gallery/page.tsx:22-40 | thirteen images with distinct ids and nothing selected |
| Gallery.GalleryPage.ToggleSelect | src/app/dashboard/gallery/page.tsx:42-48 | the selection becomes `Toggled`; images are untouched |
| Gallery.GalleryPage.DeleteSelected | src/app/dashboard/gallery/page.tsx:50-53 | an image stays exactly when its id is not selected, the rest keep their order, and the selection is emptied |
| Gallery.GalleryPage.HandleUpload | src/app/dashboard/gallery/page.tsx:55-58 | only shows the fixed notice and changes nothing |
| Upload.Check | src/components/dashboard/image-upload.tsx:28-37 | a type not starting with "image/" is refused first; an image over 5 MiB is refused next; anything else is accepted |
| Upload.SizeLimitBoundary | src/components/dashboard/image-upload.tsx:34 | exactly 5 MiB is accepted, one byte more is refused, and a non-image is refused whatever its size |
| Upload.Settled | src/components/dashboard/image-upload.tsx:49-57 | a success with a non-empty URL takes the URL with a success toast; a returned failure shows its message or the fallback; a throw shows the fallback |
| Upload.ImageUpload.constructor | src/components/dashboard/image-upload.tsx:18-21 | the preview starts as `value \|\| null`, not uploading |
| Upload.ImageUpload.HandleFileChange | src/components/dashboard/image-upload.tsx:23-65 | no file changes nothing; a refused file shows its reason, uploads nothing and changes no value; an accepted file is uploaded to the field's bucket, and afterwards the spinner is off and the picker cleared; only a success with a URL sets value and preview |
| Upload.ImageUpload.HandleUrlChange | src/components/dashboard/image-upload.tsx:67-70 | the typed URL becomes the value, and the preview follows it (null for "") |
| Upload.ImageUpload.ClearImage | src/components/dashboard/image-upload.tsx:72-75 | the value becomes "" and the preview null |
| StorageActions.LastSegment | src/lib/actions/storage.ts:58-59 | the last part of a split: the longest suffix without the separator |
| StorageActions.LastSegmentAfter | src/lib/actions/storage.ts:58-59 | the text after the last separator is the last segment |
| StorageActions.Extension | src/lib/actions/storage.ts:20 | the extension holds no dot, and is the whole name when the name has none |
| StorageActions.ExtensionAfterLastDot | src/lib/actions/storage.ts:20 | the extension is exactly what follows the last dot |
| StorageActions.ObjectName | src/lib/actions/storage.ts:21 | the generated name starts with the upload instant's digits and ends with "." and the extension, and holds no slash when token and file name hold none |
| StorageActions.UploadImage | src/lib/actions/storage.ts:7-45 | no file: "No file provided" and no storage call; otherwise the upload attempted under the generated name; success exactly when storage accepted it, with the object's public URL; otherwise the storage message, or "Failed to upload image" on a throw |
| StorageActions.UploadBannerImage | src/lib/actions/storage.ts:47-51 | uploads into the banners bucket, and a success's URL lies under that bucket |
| StorageActions.DeleteTarget | src/lib/actions/storage.ts:58-59 | the object name taken from a URL holds no slash |
| StorageActions.DeleteImage | src/lib/actions/storage.ts:53-75 | removes the URL's last segment from the bucket; success exactly when storage accepted, else its message, or "Failed to delete image" on a throw |
| StorageActions.UploadThenDelete | src/lib/actions/storage.ts:35-59 | deleting by the URL an upload returned removes exactly the object that upload stored |
| StorageActions.TrimTrailingSlash | src/lib/actions/storage.ts:81 | removes one trailing slash when there is one and otherwise changes nothing |
| StorageActions.GetStorageUrl | src/lib/actions/storage.ts:77-82 | the base URL to which "/" and a name append to give that name's public URL |
| BannerActions.GetBannerImages | src/lib/actions/banner.ts:7-20 | every banner by ascending position, a permutation of the table; nothing on error |
| BannerActions.GetActiveBannerImages | src/lib/actions/banner.ts:22-36 | exactly the active banners (null is not active) by ascending position; nothing on error |
| BannerActions.CreateBannerImage | src/lib/actions/banner.ts:38-52 | a successful insert appends the row; a failure leaves the table and returns the message |
| BannerActions.Changed | src/lib/actions/banner.ts:58 | an update sets the named columns and keeps the id and every other column; an empty update changes nothing |
| BannerActions.UpdateBannerImage | src/lib/actions/banner.ts:54-69 | a successful update changes only the rows with that id; a failure leaves the table and returns the message |
| BannerActions.DeleteBannerImage | src/lib/actions/banner.ts:71-86 | a successful delete keeps exactly the rows with another id; a failure leaves the table and returns the message |
| BannerActions.WritesKeepUniqueIds | src/lib/actions/banner.ts:54-86 | updates and deletes keep banner ids distinct |
| BannerActions.SetOrder | src/lib/actions/banner.ts:93-96 | one reorder step sets the position of the id's rows only |
| BannerActions.Reordered | src/lib/actions/banner.ts:92-102 | the table after the first n steps: rows keep their places and ids |
| BannerActions.ReorderBannerImages | src/lib/actions/banner.ts:88-107 | success exactly when every update succeeded, with every step applied; otherwise the first failing step's message, with the steps before it applied and none after (no rollback) |
| BannerActions.ReorderedUnlisted | src/lib/actions/banner.ts:92-96 | for any list of ids, a banner not among the first n ids is unchanged by the first n steps |
| BannerActions.ReorderedAt | src/lib/actions/banner.ts:92-96 | with distinct ids, after n steps the banner listed at i < n has position i |
| PublicActions.Listing | src/lib/actions/public.ts:7-23 | a query's rows: only admitted rows of the table, newest first; with a limit, exactly the smaller of the limit and the number admitted; all of them without a limit; nothing on error |
| PublicActions.ListingIsNewest | src/lib/actions/public.ts:14-15 | a limited listing holds the newest rows: an admitted row left out is no newer than any row shown, under the limit nothing is left out, and over it exactly the limit is shown |
| PublicActions.GetFeaturedRepuestos | src/lib/actions/public.ts:7-23 | at most six spare parts, each active and featured, newest first; nothing on error |
| PublicActions.GetFeaturedMotocargueros | src/lib/actions/public.ts:25-41 | at most six cargo motorcycles, each active and featured, newest first; nothing on error |
| PublicActions.GetActiveRepuestos | src/lib/actions/public.ts:44-58 | exactly the active spare parts, newest first; nothing on error |
| PublicActions.GetActiveMotocargueros | src/lib/actions/public.ts:60-74 | exactly the active cargo motorcycles, newest first; nothing on error |
| PublicActions.CountOrZero | src/lib/actions/public.ts:85-86 | `count \|\| 0`: a failed count reads as 0 |
| PublicActions.GetProductCounts | src/lib/actions/public.ts:76-88 | the number of active rows of each table, 0 for a failed count |
| PublicActions.CountsMatchListings | src/lib/actions/public.ts:44-88 | the counts equal the lengths of the active listings |
| Middleware.Decide | middleware.ts:35-49 | a signed-out request for a path starting with /dashboard goes to /login; a signed-in request for /login goes to /dashboard; anything else passes |
| Middleware.Handle | middleware.ts:52-57 | paths outside the matcher pass untouched; matched paths get the decision |
| Middleware.RedirectsExclusive | middleware.ts:38-47 | the two redirect conditions never hold together |
| Middleware.NoRedirectLoop | middleware.ts:38-47 | following a redirect with the same sign-in state passes: no loop |
| Middleware.TargetsAreMatched | middleware.ts:52-57 | both redirect targets are matched paths |
| Middleware.DashboardGuarded | middleware.ts:38-41 | every dashboard path redirects signed-out requests to /login and lets signed-in ones through |
| Middleware.PrefixOutsideMatcher | middleware.ts:38-57 | `/dashboards` meets the guard's prefix test but is outside the matcher, so it passes |
| Tabs.Cards | src/components/gallery/ProductTabs.tsx:53-65 | one card per product, in order, showing its image, name and description |
| Tabs.CardsConcat | src/components/gallery/ProductTabs.tsx:53-65 | the cards of two lists in a row are the cards of each |
| Tabs.ProductTabs.constructor | src/components/gallery/ProductTabs.tsx:20 | the spare parts tab is active first |
| Tabs.ProductTabs.ShowsMore | src/components/gallery/ProductTabs.tsx:68-79 | "Ver más" appears under the spare parts and never under the cargo motorcycles |
| Tabs.ProductTabs.Click | src/components/gallery/ProductTabs.tsx:22-44 | a click makes that tab active: its products are the ones listed, "Ver más" shows exactly on the spare parts tab, and clicking the active tab again changes nothing shown |

## Left out

- Network, database and storage calls; `revalidatePath`; `window.location.reload`; toasts and `confirm`. Their outcomes are parameters of the handlers and actions. A reload is a returned flag.
- `startTransition`, `isPending` and the React render cycle. A handler's awaited call is modelled as finishing inside that handler.
- The per-field `onChange` handlers of the forms. They only copy typed text into the form.
- The presentational components: layouts, sidebar, cards, catalogue pages, footer and WhatsApp button.
- The actions for the spare parts and motorcycle tables (`repuestos.ts`, `motocargueros.ts`). They are not part of this model. The tables model only the `ActionResult` those actions return.
- Prices: `parseFloat` and `Number.prototype.toString` on reals are left opaque. The handlers take their results as parameters, and `Records.FormatPrice` models only which prices show "-". The `Intl` currency format is left out.
- Numbers.ParseInt: leading whitespace, `0x` prefixes and integers beyond 2^53 are not modelled. The forms only accept number inputs.
- Numbers.IntToString: exponent notation for integers from 10^21 up is not modelled.
- Timestamps: they are integers (the instant). The ISO text is not modelled. Database defaults (ids, `created_at`, column defaults) are not modelled; a created row is given whole.
- Ordering.SortBy: rows with equal keys keep storage order. The database promises no order among ties, so the model picks one admissible order.
- StorageActions.PublicUrl: the storage client's URL encoding of object names is not modelled.
- StorageActions.UploadImage: `Math.random().toString(36).substring(7)` is a parameter (`token`), and `Date.now()` is a parameter (`stamp`). Cache headers and `upsert: false` are not modelled.
- Middleware.Decide: the session refresh and its cookie writes are left out. The signed-in user is a parameter, and redirect targets are given as paths, not absolute URLs.
- Upload.ImageUpload: `onChange` is modelled as the `value` field; the parent's own use of it is not modelled. The spinner state between starting and finishing an upload is not observable in the model, because `HandleFileChange` runs to completion.
- Upload.ImageUpload: a preview that falls out of step with a `value` prop changed by the parent is not modelled.
- LocalCatalog.CatalogPage.HandleSubmit: uses the corrected id rule `NextId`, so on an emptied list it gives id 1 where the pages compute minus infinity; see Findings.
- LocalCatalog.CatalogPage: the spare parts and motorcycle pages run identical handlers. They are one class whose constructor takes which page it is.
- DashboardMotocargueros.MotocargueroTable: the specs column is modelled as a JSON value whose object members are strings, which is all the form ever writes.

## Findings

| source | as written | input that shows it | evidently intended | confidence | as-written member | corrected member |
|---|---|---|---|---|---|---|
| src/app/dashboard/repuestos/page.tsx:97-99 | the new id is `Math.max(...products.map(p => p.id)) + 1` | delete every product, then create two: `Math.max()` of no ids is -Infinity, so both get id -Infinity | a fresh id also for an empty list (1) | not executed | LocalCatalog.NextIdAsWritten, LocalCatalog.DuplicateIdAfterDeletingAll | LocalCatalog.NextId |
| src/app/dashboard/motos/page.tsx:97-99 | the same `Math.max(...motos.map(m => m.id)) + 1` | delete every motorcycle, then create two: both get id -Infinity | a fresh id also for an empty list (1) | not executed | LocalCatalog.NextIdAsWritten, LocalCatalog.DuplicateIdAfterDeletingAll | LocalCatalog.NextId |
