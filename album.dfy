/** Album.java: a named, ordered list of photos, and the text an album shows
    in the album list. */
module Albums {
  import opened Text
  import opened Photos

  class Album {
    var name: string
    var photos: seq<Photo>

    /** A new album has the given name and no photos. */
    constructor (name: string)
      ensures this.name == name && photos == []
    {
      this.name := name;
      photos := [];
    }

    function GetName(): string
      reads this
    {
      name
    }

    /** Only the name changes; the photo list is the same list as before. */
    method SetName(name: string)
      modifies this
      ensures GetName() == name && photos == old(photos)
    {
      this.name := name;
    }

    /** The number of photos in the album. */
    function PhotoCount(): nat
      reads this
    {
      |photos|
    }

    /** Album.equals(Album): albums are "equal" when their names are. */
    predicate Equals(other: Album)
      reads this, other
    {
      name == other.name
    }

    /** Album.toString: the name, a line break, the photo count and "photo",
        plural unless the count is exactly one. The text determines the name
        and the count, so the count read back is PhotoCount. */
    function ToString(): (s: string)
      reads this
      ensures ParseLabel(s) == Some((name, PhotoCount()))
      ensures s[|s| - 1] == 's' <==> PhotoCount() != 1
    {
      LabelRoundTrip(name, PhotoCount());
      Label(name, PhotoCount())
    }
  }

  /** Album equality looks at names only, and is an equivalence. */
  lemma EqualsIsNameEquivalence(a: Album, b: Album, c: Album)
    ensures a.Equals(b) <==> a.GetName() == b.GetName()
    ensures a.Equals(a)
    ensures a.Equals(b) <==> b.Equals(a)
    ensures a.Equals(b) && b.Equals(c) ==> a.Equals(c)
  {
  }

  /** The text of Album.toString for an album called `name` holding `count` photos. */
  function Label(name: string, count: nat): (s: string)
    ensures |s| > |name| && s[..|name|] == name && s[|name|] == '\n'
    ensures s[|s| - 1] == 's' <==> count != 1
  {
    name + "\n" + FromNat(count) + " photo" + (if count != 1 then "s" else "")
  }

  /** Reads a label back: strip an optional plural "s" and " photo", then split
      at the last line break into the name and the decimal count. */
  function ParseLabel(s: string): Option<(string, nat)> {
    var plural := |s| > 0 && s[|s| - 1] == 's';
    var body := if plural then s[..|s| - 1] else s;
    if |body| < 6 || body[|body| - 6..] != " photo" then None
    else
      var head := body[..|body| - 6];
      var i := LastIndexOf(head, '\n');
      if i < 0 then None
      else
        var digits := head[i + 1..];
        if digits == [] || !AllDigits(digits) then None
        else
          var n := ToNat(digits);
          if plural != (n != 1) then None else Some((head[..i], n))
  }

  /** The label names its album and its photo count unambiguously, even when
      the name itself holds line breaks or digits. */
  lemma LabelRoundTrip(name: string, count: nat)
    ensures ParseLabel(Label(name, count)) == Some((name, count))
  {
    var s := Label(name, count);
    var digits := FromNat(count);
    var head := name + "\n" + digits;
    var body := head + " photo";
    assert s == body + (if count != 1 then "s" else "");
    var plural := |s| > 0 && s[|s| - 1] == 's';
    assert plural == (count != 1);
    assert (if plural then s[..|s| - 1] else s) == body;
    assert body[|body| - 6..] == " photo";
    assert body[..|body| - 6] == head;
    assert head[|name|] == '\n';
    forall k | |name| < k < |head| ensures head[k] != '\n' {
      assert head[k] == digits[k - |name| - 1];
    }
    var i := LastIndexOf(head, '\n');
    assert i == |name|;
    assert head[i + 1..] == digits;
    assert head[..i] == name;
    ToNatFromNat(count);
  }

  /** Some album of `albums` is called `n`. */
  predicate HasName(albums: seq<Album>, n: string)
    reads albums
  {
    exists k :: 0 <= k < |albums| && albums[k].name == n
  }

  /** No two albums of `albums` share a name. */
  predicate NamesDistinct(albums: seq<Album>)
    reads albums
  {
    forall i, j :: 0 <= i < j < |albums| ==> albums[i].name != albums[j].name
  }

  /** The names of `albums`, position by position. */
  function Names(albums: seq<Album>): (ns: seq<string>)
    reads albums
    ensures |ns| == |albums|
    ensures forall d :: 0 <= d < |albums| ==> ns[d] == albums[d].name
  {
    if albums == [] then [] else Names(albums[..|albums| - 1]) + [albums[|albums| - 1].name]
  }

  /** The photo lists of `albums`, position by position. */
  function PhotoLists(albums: seq<Album>): (ps: seq<seq<Photo>>)
    reads albums
    ensures |ps| == |albums|
    ensures forall d :: 0 <= d < |albums| ==> ps[d] == albums[d].photos
  {
    if albums == [] then [] else PhotoLists(albums[..|albums| - 1]) + [albums[|albums| - 1].photos]
  }

  /** Every photo of every album, album after album, each album's photos in
      list order: the order in which the search visits them. */
  function Flatten(albums: seq<Album>): seq<Photo>
    reads albums
  {
    if albums == [] then [] else Flatten(albums[..|albums| - 1]) + albums[|albums| - 1].photos
  }

  /** Taking one more album adds its photos at the end. */
  lemma FlattenPrefix(albums: seq<Album>, i: nat)
    requires i < |albums|
    ensures Flatten(albums[..i + 1]) == Flatten(albums[..i]) + albums[i].photos
  {
    assert albums[..i + 1][..i] == albums[..i];
  }
}
