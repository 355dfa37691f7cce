/** The album list that MainActivity and AlbumActivity work on, with the list
    logic of their callbacks as methods. A checked list position becomes an
    index parameter and the text typed into a dialog becomes a string
    parameter.

    Quirks of the source that the model keeps:
    - RenameAlbum and ChangeCaption compare the new text with every entry,
      the selected one included, so renaming to the current text fails.
    - CopyPhoto appends the very same Photo object to the destination, so
      the two albums share it from then on.
    - MovePhoto removes the photo from its album before it looks at the
      destination; when the destination already has that caption the photo
      is added nowhere, so it is lost unless another album already shares
      that object. */
module Catalogs {
  import opened Lists
  import opened Photos
  import opened Albums
  import opened Search

  /** The duplicate-name scan of addAlbum and renameAlbum: an index loop
      over the album list comparing each name with `n`. */
  method ScanNames(albums: seq<Album>, n: string) returns (found: bool)
    ensures found <==> HasName(albums, n)
  {
    var index := 0;
    while index < |albums|
      invariant 0 <= index <= |albums|
      invariant forall k :: 0 <= k < index ==> albums[k].name != n
    {
      if n == albums[index].GetName() {
        return true;
      }
      index := index + 1;
    }
    return false;
  }

  /** The duplicate-caption scan of adding, copying, moving and recaptioning
      a photo, and of the search's check of its results: a loop over a photo
      list comparing each caption with `c`, as Photo.equals does. */
  method ScanCaptions(photos: seq<Photo>, c: string) returns (found: bool)
    ensures found <==> HasCaption(photos, c)
  {
    var index := 0;
    while index < |photos|
      invariant 0 <= index <= |photos|
      invariant forall k :: 0 <= k < index ==> photos[k].caption != c
    {
      if c == photos[index].GetCaption() {
        return true;
      }
      index := index + 1;
    }
    return false;
  }

  /** The destination step of AlbumActivity.copyPhoto and movePhoto: every
      album called `destName` gets `photo` appended unless one of its photos
      already has that caption, and a clash ends the operation. With
      distinct names at most one album is affected. */
  method AppendToNamedIn(albums: seq<Album>, photo: Photo, destName: string) returns (appended: bool)
    requires NamesDistinct(albums)
    requires forall d :: 0 <= d < |albums| ==> Distinct(albums[d].photos)
    modifies albums
    ensures NamesDistinct(albums)
    ensures forall d :: 0 <= d < |albums| ==> Distinct(albums[d].photos)
    ensures forall d :: 0 <= d < |albums| ==> albums[d].name == old(albums[d].name)
    ensures appended <==> exists d :: 0 <= d < |albums| && albums[d].name == destName &&
                                    !HasCaption(old(albums[d].photos), photo.caption)
    ensures forall d :: 0 <= d < |albums| ==>
              albums[d].photos == if appended && albums[d].name == destName
                                  then old(albums[d].photos) + [photo]
                                  else old(albums[d].photos)
    ensures forall d :: 0 <= d < |albums| && CaptionsDistinct(old(albums[d].photos)) ==>
              CaptionsDistinct(albums[d].photos)
  {
    ghost var names0 := Names(albums);
    ghost var photos0 := PhotoLists(albums);
    // With distinct names, at most one position carries `destName`.
    ghost var target := -1;
    if HasName(albums, destName) {
      target :| 0 <= target < |albums| && albums[target].name == destName;
    }
    assert forall d :: 0 <= d < |albums| ==> (names0[d] == destName <==> d == target);
    assert forall p, q :: 0 <= p < q < |albums| ==> albums[p] != albums[q];
    appended := false;
    var i := 0;
    while i < |albums|
      invariant 0 <= i <= |albums|
      invariant forall d :: 0 <= d < |albums| ==> albums[d].name == names0[d]
      invariant appended <==> 0 <= target < i
      invariant appended ==> !HasCaption(photos0[target], photo.caption)
      invariant forall d :: 0 <= d < |albums| && d != target ==> albums[d].photos == photos0[d]
      invariant 0 <= target ==> albums[target].photos == if appended then photos0[target] + [photo] else photos0[target]
    {
      var album := albums[i];
      if album.name == destName {
        var clash := ScanCaptions(album.photos, photo.caption);
        if clash {
          AppendedStaysDistinct(albums, photos0, names0, photo, destName, appended);
          return;
        }
        album.photos := album.photos + [photo];
        appended := true;
      }
      i := i + 1;
    }
    AppendedStaysDistinct(albums, photos0, names0, photo, destName, appended);
  }

  /** One photo of MainActivity.searchAlbums: its tags are tried in order;
      the first matching tag, unless alreadyAdded is set, scans the results
      for an equal caption and either sets alreadyAdded or appends the photo
      and stops. The effect is exactly one step of the search over the
      photos visited so far, `seen`. */
  method VisitPhoto(ghost seen: seq<Photo>, photo: Photo, results: seq<Photo>, alreadyAdded: bool,
                    person: string, location: string)
    returns (found: seq<Photo>, flag: bool)
    requires State(results, alreadyAdded) == Run(seen, person, location)
    ensures State(found, flag) == Run(seen + [photo], person, location)
  {
    RunSnoc(seen, photo, person, location);
    found, flag := results, alreadyAdded;
    var tags := photo.GetTags();
    var t := 0;
    while t < |tags|
      invariant 0 <= t <= |tags|
      invariant !AnyTagMatches(tags[..t], person, location) ==> found == results && flag == alreadyAdded
      invariant AnyTagMatches(tags[..t], person, location) ==>
                  flag && State(found, flag) == Step(State(results, alreadyAdded), photo, person, location)
    {
      var tagValue := tags[t].value;
      if tagValue != [] {
        if (person != [] && Text.Contains(tagValue, person)) || (location != [] && Text.Contains(tagValue, location)) {
          var repeat := ScanCaptions(found, photo.caption);
          if repeat {
            flag := true;
          }
          if !flag {
            assert TagMatches(tags[t].value, person, location);
            assert Matches(photo, person, location);
            found := found + [photo];
            flag := false;
            break;
          }
        }
      }
      assert tags[..t + 1] == tags[..t] + [tags[t]];
      t := t + 1;
    }
    assert t == |tags| ==> tags[..t] == tags;
  }

  /** The photo loop of MainActivity.searchAlbums over one album: its
      photos in list order, each one search step. */
  method VisitAlbum(ghost visited: seq<Photo>, photos: seq<Photo>, results: seq<Photo>, alreadyAdded: bool,
                    person: string, location: string)
    returns (found: seq<Photo>, flag: bool)
    requires State(results, alreadyAdded) == Run(visited, person, location)
    ensures State(found, flag) == Run(visited + photos, person, location)
  {
    found, flag := results, alreadyAdded;
    var j := 0;
    assert visited + photos[..0] == visited;
    while j < |photos|
      invariant 0 <= j <= |photos|
      invariant State(found, flag) == Run(visited + photos[..j], person, location)
    {
      ghost var seen := visited + photos[..j];
      assert visited + photos[..j + 1] == seen + [photos[j]];
      found, flag := VisitPhoto(seen, photos[j], found, flag, person, location);
      j := j + 1;
    }
    assert photos[..j] == photos;
  }

  /** The removal of AlbumActivity.removePhoto and movePhoto: the checked
      photo leaves `album`, found by reference as ArrayList.remove(Object)
      does; as the album lists each object once, that is the checked
      position. */
  method RemoveChecked(album: Album, checked: nat)
    requires Distinct(album.photos) && checked < |album.photos|
    modifies album
    ensures album.photos == old(album.photos[..checked] + album.photos[checked + 1..])
    ensures album.name == old(album.name)
    ensures Distinct(album.photos)
  {
    var checkedPhoto := album.photos[checked];
    RemoveFirstAt(album.photos, checked);
    DistinctWithout(album.photos, checked);
    album.photos := RemoveFirst(album.photos, checkedPhoto);
  }

  /** AlbumActivity.movePhoto on the album list: the checked photo of album
      `a` leaves it first, then goes to the album called `destName` unless
      that album already has its caption. */
  method MoveBetween(albums: seq<Album>, a: nat, checked: nat, destName: string) returns (moved: bool)
    requires NamesDistinct(albums)
    requires forall d :: 0 <= d < |albums| ==> Distinct(albums[d].photos)
    requires a < |albums| && checked < |albums[a].photos|
    requires destName != albums[a].name
    modifies albums
    ensures NamesDistinct(albums)
    ensures forall d :: 0 <= d < |albums| ==> Distinct(albums[d].photos)
    ensures forall d :: 0 <= d < |albums| ==> albums[d].name == old(albums[d].name)
    ensures var p := old(albums[a].photos[checked]);
            moved <==> exists d :: 0 <= d < |albums| && albums[d].name == destName &&
                                 !HasCaption(old(albums[d].photos), p.caption)
    ensures albums[a].photos == old(albums[a].photos[..checked] + albums[a].photos[checked + 1..])
    ensures var p := old(albums[a].photos[checked]);
            forall d :: 0 <= d < |albums| && d != a ==>
              albums[d].photos == if moved && albums[d].name == destName
                                  then old(albums[d].photos) + [p]
                                  else old(albums[d].photos)
    ensures forall d :: 0 <= d < |albums| && CaptionsDistinct(old(albums[d].photos)) ==>
              CaptionsDistinct(albums[d].photos)
  {
    var photo := albums[a].photos[checked];
    assert forall p, q :: 0 <= p < q < |albums| ==> albums[p] != albums[q];
    RemoveChecked(albums[a], checked);
    assert forall d :: 0 <= d < |albums| && d != a ==> albums[d].photos == old(albums[d].photos);
    moved := AppendToNamedIn(albums, photo, destName);
    if CaptionsDistinct(old(albums[a].photos)) {
      CaptionsDistinctWithout(old(albums[a].photos), checked);
    }
  }

  /** After the photo has been appended to the albums called `destName`,
      whose photos did not carry its caption, each photo list is still free
      of repetitions, and each list whose captions were distinct still has
      distinct captions. */
  lemma AppendedStaysDistinct(all: seq<Album>, photos0: seq<seq<Photo>>, names0: seq<string>,
                              photo: Photo, destName: string, appended: bool)
    requires |photos0| == |names0| == |all|
    requires forall d :: 0 <= d < |all| ==> Distinct(photos0[d])
    requires forall d :: 0 <= d < |all| && appended && names0[d] == destName ==> !HasCaption(photos0[d], photo.caption)
    requires forall d :: 0 <= d < |all| ==>
               all[d].photos == if appended && names0[d] == destName then photos0[d] + [photo] else photos0[d]
    ensures forall d :: 0 <= d < |all| ==> Distinct(all[d].photos)
    ensures forall d :: 0 <= d < |all| && CaptionsDistinct(photos0[d]) ==> CaptionsDistinct(all[d].photos)
  {
    forall d | 0 <= d < |all| ensures Distinct(all[d].photos) {
      if appended && names0[d] == destName {
        NoCaptionNotIn(photos0[d], photo);
        DistinctSnoc(photos0[d], photo);
      }
    }
    forall d | 0 <= d < |all| && CaptionsDistinct(photos0[d]) ensures CaptionsDistinct(all[d].photos) {
      if appended && names0[d] == destName {
        CaptionsDistinctSnoc(photos0[d], photo);
      }
    }
  }

  class Catalog {
    var albums: seq<Album>

    /** Album names are pairwise distinct, and no album lists the same photo
        object twice. Both hold of the default catalog and after every
        operation. (Captions are not always distinct: see ChangeCaption.) */
    ghost predicate Valid()
      reads this, albums
    {
      NamesDistinct(albums) &&
      forall d :: 0 <= d < |albums| ==> Distinct(albums[d].photos)
    }

    /** The catalog created when there is no saved data: one empty album
        called "stock". */
    constructor Default()
      ensures Valid()
      ensures |albums| == 1 && fresh(albums[0])
      ensures albums[0].name == "stock" && albums[0].photos == []
    {
      var stock := new Album("stock");
      albums := [stock];
    }

    /** MainActivity.addAlbum: a name no album carries yet gets a new empty
        album at the end of the list; otherwise nothing changes. */
    method AddAlbum(name: string) returns (added: bool)
      requires Valid()
      modifies this
      ensures Valid()
      ensures added <==> !old(HasName(albums, name))
      ensures !added ==> albums == old(albums)
      ensures added ==> |albums| == |old(albums)| + 1 && albums[..|albums| - 1] == old(albums)
      ensures added ==> fresh(albums[|albums| - 1])
      ensures added ==> albums[|albums| - 1].name == name && albums[|albums| - 1].photos == []
    {
      var newAlbum := new Album(name);
      var clash := ScanNames(albums, newAlbum.name);
      if clash {
        return false;
      }
      albums := albums + [newAlbum];
      added := true;
    }

    /** MainActivity.removeAlbum: nothing happens on an empty list; otherwise
        the checked album leaves the list and the others keep their order.
        (The source removes the checked object by reference; as album objects
        are distinct that is the checked position.) */
    method RemoveAlbum(checked: nat) returns (removed: bool)
      requires Valid()
      requires albums != [] ==> checked < |albums|
      modifies this
      ensures Valid()
      ensures removed <==> old(albums) != []
      ensures removed ==> albums == old(albums[..checked] + albums[checked + 1..])
      ensures !removed ==> albums == old(albums)
    {
      if |albums| == 0 {
        return false;
      }
      var checkedAlbum := albums[checked];
      assert Distinct(albums);
      RemoveFirstAt(albums, checked);
      DistinctWithout(albums, checked);
      albums := RemoveFirst(albums, checkedAlbum);
      removed := true;
    }

    /** MainActivity.renameAlbum: when no album, the checked one included,
        already has the new name, the checked album takes it; otherwise
        nothing changes. Only the checked album's name can change. */
    method RenameAlbum(checked: nat, newName: string) returns (renamed: bool)
      requires Valid()
      requires checked < |albums|
      modifies albums[checked]
      ensures Valid()
      ensures renamed <==> !old(HasName(albums, newName))
      ensures newName == old(albums[checked].name) ==> !renamed
      ensures albums[checked].name == if renamed then newName else old(albums[checked].name)
      ensures albums[checked].photos == old(albums[checked].photos)
      ensures forall d :: 0 <= d < |albums| && d != checked ==> albums[d].name == old(albums[d].name)
    {
      var clash := ScanNames(albums, newName);
      if clash {
        return false;
      }
      albums[checked].SetName(newName);
      renamed := true;
    }

    /** AlbumActivity.onActivityResult: the picked image becomes a new photo at
        the end of album `a`, unless a photo of that album already has its
        caption, in which case nothing changes. */
    method AddPhoto(a: nat, caption: string, bitmap: Bitmap) returns (added: bool)
      requires Valid()
      requires a < |albums|
      modifies albums[a]
      ensures Valid()
      ensures added <==> !old(HasCaption(albums[a].photos, caption))
      ensures !added ==> albums[a].photos == old(albums[a].photos)
      ensures added ==> |albums[a].photos| == |old(albums[a].photos)| + 1
      ensures added ==> albums[a].photos[..|albums[a].photos| - 1] == old(albums[a].photos)
      ensures added ==> var p := albums[a].photos[|albums[a].photos| - 1];
                        fresh(p) && p.caption == caption && p.tags == [] && p.bitmap == bitmap
      ensures albums[a].name == old(albums[a].name)
      ensures old(CaptionsDistinct(albums[a].photos)) ==> CaptionsDistinct(albums[a].photos)
    {
      var album := albums[a];
      var photo := new Photo(caption, bitmap);
      var clash := ScanCaptions(album.photos, photo.caption);
      if clash {
        return false;
      }
      if CaptionsDistinct(album.photos) {
        CaptionsDistinctSnoc(album.photos, photo);
      }
      NoCaptionNotIn(album.photos, photo);
      DistinctSnoc(album.photos, photo);
      album.photos := album.photos + [photo];
      added := true;
    }

    /** AlbumActivity.removePhoto: nothing happens on an empty album;
        otherwise the checked photo leaves album `a` and the others keep their
        order. */
    method RemovePhoto(a: nat, checked: nat) returns (removed: bool)
      requires Valid()
      requires a < |albums|
      requires albums[a].photos != [] ==> checked < |albums[a].photos|
      modifies albums[a]
      ensures Valid()
      ensures removed <==> old(albums[a].photos) != []
      ensures removed ==> albums[a].photos == old(albums[a].photos[..checked] + albums[a].photos[checked + 1..])
      ensures !removed ==> albums[a].photos == old(albums[a].photos)
      ensures albums[a].name == old(albums[a].name)
      ensures CaptionsDistinct(old(albums[a].photos)) ==> CaptionsDistinct(albums[a].photos)
    {
      if |albums[a].photos| == 0 {
        return false;
      }
      RemoveChecked(albums[a], checked);
      if CaptionsDistinct(old(albums[a].photos)) {
        CaptionsDistinctWithout(old(albums[a].photos), checked);
      }
      removed := true;
    }

    /** The destinations the copy and move dialogs offer: the names of the
        albums other than album `a`, in list order. With distinct names that
        is every album but one, so a catalog of one album offers none. */
    method DestinationNames(a: nat) returns (names: seq<string>)
      requires Valid()
      requires a < |albums|
      ensures forall n :: n in names <==> n != albums[a].name && HasName(albums, n)
      ensures |names| == |albums| - 1
    {
      names := [];
      for i := 0 to |albums|
        invariant forall n :: n in names <==> n != albums[a].name && exists d :: 0 <= d < i && albums[d].name == n
        invariant |names| == if a < i then i - 1 else i
      {
        if albums[i].name != albums[a].name {
          names := names + [albums[i].name];
        }
      }
    }

    /** AlbumActivity.copyPhoto: the checked photo of album `a` is appended,
        as the same object, to the album called `destName`, unless that album
        already has a photo with its caption. Album `a` never changes. */
    method CopyPhoto(a: nat, checked: nat, destName: string) returns (copied: bool)
      requires Valid()
      requires a < |albums| && checked < |albums[a].photos|
      requires destName != albums[a].name
      modifies albums
      ensures Valid()
      ensures forall d :: 0 <= d < |albums| ==> albums[d].name == old(albums[d].name)
      ensures var p := old(albums[a].photos[checked]);
              copied <==> exists d :: 0 <= d < |albums| && albums[d].name == destName &&
                                    !HasCaption(old(albums[d].photos), p.caption)
      ensures var p := old(albums[a].photos[checked]);
              forall d :: 0 <= d < |albums| ==>
                albums[d].photos == if copied && albums[d].name == destName
                                    then old(albums[d].photos) + [p]
                                    else old(albums[d].photos)
      ensures albums[a].photos == old(albums[a].photos)
      ensures forall d :: 0 <= d < |albums| && CaptionsDistinct(old(albums[d].photos)) ==>
                CaptionsDistinct(albums[d].photos)
    {
      var photo := albums[a].photos[checked];
      copied := AppendToNamedIn(albums, photo, destName);
    }

    /** AlbumActivity.movePhoto: the checked photo always leaves album `a`;
        it is then appended to the album called `destName` unless that album
        already has a photo with its caption, in which case it is added
        nowhere: it is lost unless another album already holds the same
        object. */
    method MovePhoto(a: nat, checked: nat, destName: string) returns (moved: bool)
      requires Valid()
      requires a < |albums| && checked < |albums[a].photos|
      requires destName != albums[a].name
      modifies albums
      ensures Valid()
      ensures forall d :: 0 <= d < |albums| ==> albums[d].name == old(albums[d].name)
      ensures var p := old(albums[a].photos[checked]);
              moved <==> exists d :: 0 <= d < |albums| && albums[d].name == destName &&
                                   !HasCaption(old(albums[d].photos), p.caption)
      ensures albums[a].photos == old(albums[a].photos[..checked] + albums[a].photos[checked + 1..])
      ensures var p := old(albums[a].photos[checked]);
              forall d :: 0 <= d < |albums| && d != a ==>
                albums[d].photos == if moved && albums[d].name == destName
                                    then old(albums[d].photos) + [p]
                                    else old(albums[d].photos)
      ensures forall d :: 0 <= d < |albums| && CaptionsDistinct(old(albums[d].photos)) ==>
                CaptionsDistinct(albums[d].photos)
    {
      moved := MoveBetween(albums, a, checked, destName);
    }

    /** AlbumActivity.changeCaption: when no photo of album `a`, the checked
        one included, already has the new caption, the checked photo takes
        it; otherwise nothing changes. The photo is an object, so every album
        that holds it (after a copy) sees the new caption. */
    method ChangeCaption(a: nat, checked: nat, newCaption: string) returns (changed: bool)
      requires Valid()
      requires a < |albums| && checked < |albums[a].photos|
      modifies albums[a].photos[checked]
      ensures Valid()
      ensures changed <==> !old(HasCaption(albums[a].photos, newCaption))
      ensures newCaption == old(albums[a].photos[checked].caption) ==> !changed
      ensures var p := albums[a].photos[checked];
              p.caption == (if changed then newCaption else old(p.caption)) && p.tags == old(p.tags)
      ensures var p := albums[a].photos[checked];
              forall d, k :: 0 <= d < |albums| && 0 <= k < |albums[d].photos| && albums[d].photos[k] != p ==>
                albums[d].photos[k].caption == old(albums[d].photos[k].caption)
      ensures old(CaptionsDistinct(albums[a].photos)) ==> CaptionsDistinct(albums[a].photos)
    {
      var album := albums[a];
      var clash := ScanCaptions(album.photos, newCaption);
      if clash {
        return false;
      }
      album.photos[checked].SetCaption(newCaption);
      changed := true;
    }

    /** MainActivity.searchAlbums: the photos whose tags match the person or
        location query, visiting albums in order and each album's photos in
        order. The catalog is only read. */
    method Search(person: string, location: string) returns (results: seq<Photo>)
      ensures results == Run(Flatten(albums), person, location).results
    {
      var all := albums;
      results := [];
      var alreadyAdded := false;
      ghost var visited: seq<Photo> := [];
      var i := 0;
      while i < |all|
        invariant 0 <= i <= |all|
        invariant visited == Flatten(all[..i])
        invariant State(results, alreadyAdded) == Run(visited, person, location)
      {
        results, alreadyAdded := VisitAlbum(visited, all[i].photos, results, alreadyAdded, person, location);
        FlattenPrefix(all, i);
        visited := visited + all[i].photos;
        i := i + 1;
      }
      assert all[..i] == all;
    }
  }

  /** Captions need not stay distinct across the catalog. Album "stock"
      holds a photo captioned "a", which was copied to album "Y" next to a
      photo captioned "b": the two albums share the object, as CopyPhoto
      leaves them. Recaptioning it to "b" through "stock" checks "stock" only
      and succeeds, so "Y" ends up with two photos captioned "b". */
  method SharedRecaptionRepeatsCaption() returns (c: Catalog, changed: bool)
    ensures c.Valid() && |c.albums| == 2
    ensures changed
    ensures CaptionsDistinct(c.albums[0].photos)
    ensures !CaptionsDistinct(c.albums[1].photos)
  {
    var p := new Photo("a", Bitmap([]));
    var q := new Photo("b", Bitmap([]));
    var stock := new Album("stock");
    var y := new Album("Y");
    stock.photos, y.photos := [p], [q, p];
    c := new Catalog.Default();
    c.albums := [stock, y];
    assert !HasCaption(c.albums[0].photos, "b");
    changed := c.ChangeCaption(0, 0, "b");
    assert c.albums[1].photos[0] == q != p;
    assert c.albums[1].photos[0].caption == c.albums[1].photos[1].caption;
  }
}
