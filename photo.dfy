/** Photo.java: a captioned image with a list of tags. Photos are objects:
    the catalog holds references to them, and copying a photo to another
    album shares the object. */
module Photos {

  /** A tag on a photo. Tag.java is not part of this model; the catalog
      code reads only a tag's value. */
  datatype Tag = Tag(value: string)

  /** Decoded image content, never looked into by the catalog code. */
  datatype Bitmap = Bitmap(pixels: seq<bv8>)

  class Photo {
    var caption: string
    var tags: seq<Tag>
    const bitmap: Bitmap

    /** A new photo has the given caption and image and no tags. */
    constructor (caption: string, bitmap: Bitmap)
      ensures this.caption == caption && tags == [] && this.bitmap == bitmap
    {
      this.caption := caption;
      tags := [];
      this.bitmap := bitmap;
    }

    function GetCaption(): string
      reads this
    {
      caption
    }

    /** Only the caption changes; the tags stay as they were. */
    method SetCaption(caption: string)
      modifies this
      ensures GetCaption() == caption && tags == old(tags)
    {
      this.caption := caption;
    }

    /** The photo's own tag list. */
    function GetTags(): seq<Tag>
      reads this
    {
      tags
    }

    /** Photo.equals(Photo): two photos are "equal" when their captions are,
        whatever their tags or images. */
    predicate Equals(other: Photo)
      reads this, other
    {
      caption == other.caption
    }
  }

  /** Photo equality looks at captions only, and is an equivalence. */
  lemma EqualsIsCaptionEquivalence(p: Photo, q: Photo, r: Photo)
    ensures p.Equals(q) <==> p.GetCaption() == q.GetCaption()
    ensures p.Equals(p)
    ensures p.Equals(q) <==> q.Equals(p)
    ensures p.Equals(q) && q.Equals(r) ==> p.Equals(r)
  {
  }

  /** Some photo of `photos` carries caption `c`. */
  predicate HasCaption(photos: seq<Photo>, c: string)
    reads photos
  {
    exists k :: 0 <= k < |photos| && photos[k].caption == c
  }

  /** A photo whose caption no photo of `photos` carries is not among them. */
  lemma NoCaptionNotIn(photos: seq<Photo>, p: Photo)
    requires !HasCaption(photos, p.caption)
    ensures p !in photos
  {
    forall k | 0 <= k < |photos| ensures photos[k] != p {
      assert photos[k].caption != p.caption;
    }
  }

  /** No two photos of `photos` share a caption. */
  predicate CaptionsDistinct(photos: seq<Photo>)
    reads photos
  {
    forall i, j :: 0 <= i < j < |photos| ==> photos[i].caption != photos[j].caption
  }

  /** Deleting one position keeps captions pairwise distinct. */
  lemma CaptionsDistinctWithout(photos: seq<Photo>, i: nat)
    requires i < |photos| && CaptionsDistinct(photos)
    ensures CaptionsDistinct(photos[..i] + photos[i + 1..])
  {
    var rest := photos[..i] + photos[i + 1..];
    forall p, q | 0 <= p < q < |rest| ensures rest[p].caption != rest[q].caption {
      var p' := if p < i then p else p + 1;
      var q' := if q < i then q else q + 1;
      assert rest[p] == photos[p'] && rest[q] == photos[q'];
    }
  }
}
