# Photo catalog of photoapp78

A model of the in-memory catalog of the photoapp78 Android application:

- a list of albums, each with a name and an ordered list of photos;
- photos, each with a caption, a list of tags and an image;
- the list logic of the activity callbacks that add, remove and rename
  albums, add, remove, recaption, copy and move photos, and search every
  album by tag.

Albums and photos are objects whose fields the application updates in place.
They are Dafny classes (`Albums.Album`, `Photos.Photo`). The album list is
the field `albums` of a `Catalogs.Catalog` object. Each activity callback
becomes a method of `Catalog`:

- a checked list position becomes an index parameter;
- text typed into a dialog becomes a string parameter;
- the image picked for a new photo becomes a `Bitmap` parameter.

The catalog invariant `Catalog.Valid` has two parts. Album names are pairwise
distinct, and no album lists the same photo object twice. It holds of the
default catalog and every method preserves it.

Captions are not pairwise distinct in every reachable state. Copying shares
the photo object between two albums. Recaptioning it through one album checks
only that album, so the other album can end up with two equal captions.
`Catalogs.SharedRecaptionRepeatsCaption` recaptions a shared photo this way
and proves the result. The methods that change a photo list therefore state
that every album whose captions were distinct keeps them distinct, and
`ChangeCaption` states it for the album it checks.

The search is specified by `Search.Run`, a fold over the photos in visiting
order. The search keeps one flag, `alreadyAdded`, which is never cleared once
set. `Search.RunIsLongestDistinctPrefix` states what this amounts to: the
results are the longest prefix of the matching photos whose captions are
pairwise distinct.

The model keeps these quirks of the code:

- Renaming an album, or recaptioning a photo, to its current text fails. The
  duplicate scan includes the entry being changed.
- Copying appends the very same photo object, not a copy.
- Moving removes the photo from its album before checking the destination.
  On a caption clash the photo is added nowhere. It is lost unless another
  album already holds the same object, after a copy.
- After the first caption repeat, the search adds no further photos.

## Model

| member | source | states |
|---|---|---|
| Photos.Photo.constructor | photoapp78/app/src/main/java/cs213/photoapp78/model/Photo.java:28-32 | a new photo has the given caption and image and an empty tag list |
| Photos.Photo.SetCaption | photoapp78/app/src/main/java/cs213/photoapp78/model/Photo.java:39-45 | afterwards the caption read back is the one set; the tags are unchanged |
| Photos.EqualsIsCaptionEquivalence | photoapp78/app/src/main/java/cs213/photoapp78/model/Photo.java:66-68 | photo equality holds iff the captions are equal, whatever the tags or image; it is reflexive, symmetric and transitive |
| Albums.Album.constructor | photoapp78/app/src/main/java/cs213/photoapp78/model/Album.java:19-22 | a new album has the given name and no photos |
| Albums.Album.SetName | photoapp78/app/src/main/java/cs213/photoapp78/model/Album.java:29-40 | afterwards the name read back is the one set; the photo list is the same as before |
| Albums.EqualsIsNameEquivalence | photoapp78/app/src/main/java/cs213/photoapp78/model/Album.java:66-68 | album equality holds iff the names are equal, whatever the photos; it is reflexive, symmetric and transitive |
| Albums.Album.ToString | photoapp78/app/src/main/java/cs213/photoapp78/model/Album.java:56-78 | the label parses back to the album's name and its photo count (getPhotoCount, the size of the photo list), and it ends in "s" exactly when that count is not one |
| Albums.Label | photoapp78/app/src/main/java/cs213/photoapp78/model/Album.java:74-77 | the label starts with the name followed by a line break, and ends in "s" exactly when the count is not one |
| Albums.LabelRoundTrip | photoapp78/app/src/main/java/cs213/photoapp78/model/Album.java:73-78 | parsing a label gives back the name and count it was made from, even when the name holds line breaks or digits |
| Text.ToNatFromNat | photoapp78/app/src/main/java/cs213/photoapp78/model/Album.java:74 | the decimal text of a count reads back as that count |
| Text.FromNat | photoapp78/app/src/main/java/cs213/photoapp78/model/Album.java:74 | the decimal text of a count is a non-empty digit string, with a leading zero only for zero itself |
| Text.Contains | photoapp78/app/src/main/java/cs213/photoapp78/MainActivity.java:277-278 | String.contains: true exactly when the query occurs at some position of the value |
| Lists.RemoveFirst | photoapp78/app/src/main/java/cs213/photoapp78/MainActivity.java:120 | removing an element the list lacks leaves it unchanged; removing one it has shortens it by one and adds nothing; `Lists.RemoveFirstAt` states which element goes |
| Lists.RemoveFirstAt | photoapp78/app/src/main/java/cs213/photoapp78/AlbumActivity.java:162 | ArrayList.remove(Object) removes the first occurrence: when position i holds the first copy of its element, removing that element deletes exactly position i and keeps the order of the rest |
| Catalogs.Catalog.Default | photoapp78/app/src/main/java/cs213/photoapp78/MainActivity.java:57-63 | with no saved data, the catalog is exactly one new empty album named "stock", and it is valid |
| Catalogs.ScanNames | photoapp78/app/src/main/java/cs213/photoapp78/MainActivity.java:156-157 | the duplicate-name scan reports a clash iff some album carries the name |
| Catalogs.Catalog.AddAlbum | photoapp78/app/src/main/java/cs213/photoapp78/MainActivity.java:153-166 | the album is added iff no album has the name; when it is added, a new empty album with that name is appended and nothing else changes; otherwise the list is unchanged; names stay distinct |
| Catalogs.Catalog.RemoveAlbum | photoapp78/app/src/main/java/cs213/photoapp78/MainActivity.java:102-120 | an empty list is left alone; otherwise exactly the checked album is removed and the others keep their order; the invariant is kept |
| Catalogs.Catalog.RenameAlbum | photoapp78/app/src/main/java/cs213/photoapp78/MainActivity.java:200-211 | the rename happens iff no album, the checked one included, has the new name, so renaming to the current name fails; only the checked album's name changes; names stay distinct |
| Catalogs.ScanCaptions | photoapp78/app/src/main/java/cs213/photoapp78/AlbumActivity.java:121-122 | the duplicate-caption scan reports a clash iff some photo of the list carries the caption |
| Catalogs.Catalog.AddPhoto | photoapp78/app/src/main/java/cs213/photoapp78/AlbumActivity.java:117-131 | the photo is added iff no photo of the album has its caption; when added, a new photo with that caption and image and no tags is appended at the end; otherwise the album is unchanged; distinct captions stay distinct |
| Catalogs.Catalog.RemovePhoto | photoapp78/app/src/main/java/cs213/photoapp78/AlbumActivity.java:144-162 | an empty album is left alone; otherwise exactly the checked photo is removed and the rest keep their order; the album keeps its name; distinct captions stay distinct |
| Catalogs.RemoveChecked | photoapp78/app/src/main/java/cs213/photoapp78/AlbumActivity.java:162 | removing the checked photo by reference from an album that lists each object once deletes exactly the checked position, keeps the name and leaves the list free of repetitions |
| Catalogs.Catalog.DestinationNames | photoapp78/app/src/main/java/cs213/photoapp78/AlbumActivity.java:184-189 | the copy and move dialogs offer exactly the names of the other albums, one per album but the current one |
| Catalogs.AppendToNamedIn | photoapp78/app/src/main/java/cs213/photoapp78/AlbumActivity.java:207-223 | the photo is appended iff an album carries the destination name and none of its photos has the caption; only that album changes, by exactly that photo at the end; no name changes; names stay distinct and photo lists stay free of repetitions; distinct captions stay distinct |
| Catalogs.Catalog.CopyPhoto | photoapp78/app/src/main/java/cs213/photoapp78/AlbumActivity.java:205-223 | on a caption clash nothing changes; otherwise the same photo object is appended to the destination; the source album is unchanged; distinct captions stay distinct |
| Catalogs.Catalog.MovePhoto | photoapp78/app/src/main/java/cs213/photoapp78/AlbumActivity.java:262-281 | the checked photo always leaves its album, the others keeping their order; it is appended to the destination iff the destination lacks its caption, and otherwise added nowhere; no other album changes; distinct captions stay distinct |
| Catalogs.MoveBetween | photoapp78/app/src/main/java/cs213/photoapp78/AlbumActivity.java:262-281 | on the album list: the checked photo leaves its album first, then is appended to the destination iff the destination lacks its caption; every other album keeps its photos; names stay distinct, photo lists stay free of repetitions and distinct captions stay distinct |
| Catalogs.Catalog.ChangeCaption | photoapp78/app/src/main/java/cs213/photoapp78/AlbumActivity.java:311-322 | the caption changes iff no photo of the album, the checked one included, has it, so recaptioning to the current caption fails; only that photo object's caption changes, and its tags do not; the album's captions stay distinct |
| Catalogs.Catalog.Search | photoapp78/app/src/main/java/cs213/photoapp78/MainActivity.java:266-295 | the nested loops compute the search specification `Run` over all photos in album-then-photo order; the catalog is only read |
| Catalogs.VisitPhoto | photoapp78/app/src/main/java/cs213/photoapp78/MainActivity.java:273-293 | the tag loop for one photo, with its inner scan of the results, performs exactly one step of the search specification |
| Catalogs.VisitAlbum | photoapp78/app/src/main/java/cs213/photoapp78/MainActivity.java:272-294 | the photo loop for one album performs the search specification over that album's photos, continuing from the photos visited before |
| Search.RunSnoc | photoapp78/app/src/main/java/cs213/photoapp78/MainActivity.java:271-295 | the search over one more photo is one more step |
| Search.Run | photoapp78/app/src/main/java/cs213/photoapp78/MainActivity.java:271-295 | every result is one of the visited photos |
| Search.Matching | photoapp78/app/src/main/java/cs213/photoapp78/MainActivity.java:273-278 | the matching photos are exactly the visited photos that have a tag whose value passes the test |
| Search.CaptionsDistinctSnoc | photoapp78/app/src/main/java/cs213/photoapp78/MainActivity.java:279-287 | appending a photo keeps captions distinct iff no earlier photo has its caption |
| Search.StepKeepsLongestDistinctPrefix | photoapp78/app/src/main/java/cs213/photoapp78/MainActivity.java:279-290 | visiting one matching photo keeps the results the longest caption-distinct prefix of the matching photos |
| Search.RunIsLongestDistinctPrefix | photoapp78/app/src/main/java/cs213/photoapp78/MainActivity.java:266-295 | the results are the longest prefix of the matching photos, in visiting order, whose captions are pairwise distinct; alreadyAdded is set iff that prefix falls short |
| Search.ResultsMatch | photoapp78/app/src/main/java/cs213/photoapp78/MainActivity.java:273-287 | every result is a visited photo some non-empty tag value of which contains a non-empty person or location query |
| Search.NothingMatchesEmptyQueries | photoapp78/app/src/main/java/cs213/photoapp78/MainActivity.java:276-278 | with both queries empty, no photo matches |
| Search.EmptyQueriesFindNothing | photoapp78/app/src/main/java/cs213/photoapp78/MainActivity.java:266-278 | with both queries empty, the search finds nothing |
| Search.AllFoundWhenCaptionsDistinct | photoapp78/app/src/main/java/cs213/photoapp78/MainActivity.java:266-295 | when the matching photos have distinct captions, the search finds all of them, in order |
| Search.AlreadyAddedStopsSearch | photoapp78/app/src/main/java/cs213/photoapp78/MainActivity.java:269-290 | once alreadyAdded is set, visiting any further photos changes neither the results nor the flag |
| Search.FirstRepeatSetsFlag | photoapp78/app/src/main/java/cs213/photoapp78/MainActivity.java:279-283 | a matching photo whose caption repeats a result's sets the flag and adds nothing, even when it is the very same object |
| Catalogs.SharedRecaptionRepeatsCaption | photoapp78/app/src/main/java/cs213/photoapp78/AlbumActivity.java:311-322 | in a valid catalog where "stock" and "Y" share a photo, as a copy leaves them, recaptioning it through "stock" to a caption "Y" already has succeeds, and "Y" then holds two equal captions |

## Left out

- Saving and loading the catalog are not modelled. DataSaver.java and the file read in `MainActivity.onCreate` use Java object streams and swallow exceptions. Only the catalog built when there is no saved data is modelled (`Catalog.Default`).
- Image decoding and the serializable bitmap wrapper are not modelled. The image is an uninterpreted `Bitmap` value. The caption of a picked image (the last segment of its URI) is a parameter.
- Dialogs, confirmations, list views, adapters and intents are not modelled, nor are `openAlbum` and `openPhoto`. A checked position is an index parameter that must be in range. The methods that return early on an empty list (`RemoveAlbum`, `RemovePhoto`) only require that when the list is not empty.
- The album list that AlbumActivity receives through an intent is a deserialized copy. The model has one shared catalog.
- Tag.java is not part of this model. A tag is its value string, the only part the catalog code reads.
- The `requestCode`/`resultCode` checks and the null-result check of `onActivityResult` are not modelled. `AddPhoto` is the path where all of them pass.
- Photo.GetTags: returns the tag list as a value. The Java method hands out the photo's own mutable list, so a change through it changes the photo. Tag editing happens in PhotoActivity, which is not part of this model.
- Catalogs.Catalog.CopyPhoto and Catalogs.Catalog.MovePhoto: take the destination name as a parameter. They require only that it differs from the current album's name. The source always takes it from the dialog's list. With a single album that list is empty, and building the dialog fails on its first entry; the model does not capture that failure.
- Catalogs.Catalog.DestinationNames: states which names are offered and how many, not their order in the dialog.
- `Photo.getBitmap` is not modelled. The image is a constant field that the catalog code never reads.
