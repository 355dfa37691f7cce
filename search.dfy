/** The search of MainActivity.searchAlbums, as a specification over the
    photos in visiting order (album after album, photo after photo).

    The source keeps one flag, alreadyAdded, for the whole search. It is set
    when a matching photo's caption equals that of an earlier result and is
    never cleared again (its only reset sits on the path where it is already
    false). From then on no photo is added. The specification keeps that
    behaviour, and the lemmas below state what it amounts to: the results are
    the longest prefix of the matching photos whose captions are pairwise
    distinct. */
module Search {
  import opened Text
  import opened Photos

  /** The test applied to one tag value: a non-empty value containing a
      non-empty person query or a non-empty location query. */
  predicate TagMatches(value: string, person: string, location: string) {
    value != [] &&
    ((person != [] && Contains(value, person)) || (location != [] && Contains(value, location)))
  }

  /** Some tag of `tags` passes the test. */
  predicate AnyTagMatches(tags: seq<Tag>, person: string, location: string) {
    exists k :: 0 <= k < |tags| && TagMatches(tags[k].value, person, location)
  }

  predicate Matches(p: Photo, person: string, location: string)
    reads p
  {
    AnyTagMatches(p.tags, person, location)
  }

  /** The search's variables after some prefix of the photos: the list of
      results and the alreadyAdded flag. */
  datatype State = State(results: seq<Photo>, alreadyAdded: bool)

  /** The effect of visiting one photo. A photo no tag of which matches leaves
      the state alone, and so does every photo once alreadyAdded is set. A
      matching photo whose caption an earlier result carries sets the flag;
      any other matching photo is appended. */
  function Step(st: State, p: Photo, person: string, location: string): State
    reads p, set x | x in st.results
  {
    if !Matches(p, person, location) || st.alreadyAdded then st
    else if HasCaption(st.results, p.caption) then State(st.results, true)
    else State(st.results + [p], false)
  }

  /** The state after visiting `photos` in order, from no results and a clear flag. */
  function Run(photos: seq<Photo>, person: string, location: string): (st: State)
    reads photos
    ensures forall x :: x in st.results ==> x in photos
  {
    if photos == [] then State([], false)
    else
      var init := photos[..|photos| - 1];
      var prev := Run(init, person, location);
      assert forall x :: x in init ==> x in photos;
      Step(prev, photos[|photos| - 1], person, location)
  }

  /** The search over one more photo is one more step. */
  lemma RunSnoc(photos: seq<Photo>, p: Photo, person: string, location: string)
    ensures Run(photos + [p], person, location) == Step(Run(photos, person, location), p, person, location)
  {
    assert (photos + [p])[..|photos|] == photos;
  }

  /** The photos of `photos` that match the queries, in order. */
  function Matching(photos: seq<Photo>, person: string, location: string): (m: seq<Photo>)
    reads photos
    ensures forall k :: 0 <= k < |m| ==> m[k] in photos && Matches(m[k], person, location)
    ensures forall k :: 0 <= k < |photos| && Matches(photos[k], person, location) ==> photos[k] in m
  {
    if photos == [] then []
    else
      var last := photos[|photos| - 1];
      assert photos == photos[..|photos| - 1] + [last];
      Matching(photos[..|photos| - 1], person, location) + (if Matches(last, person, location) then [last] else [])
  }

  /** Appending a caption already present breaks distinctness; appending a
      new one keeps it. */
  lemma CaptionsDistinctSnoc(ps: seq<Photo>, p: Photo)
    requires CaptionsDistinct(ps)
    ensures CaptionsDistinct(ps + [p]) <==> !HasCaption(ps, p.caption)
  {
    var qs := ps + [p];
    if HasCaption(ps, p.caption) {
      var k :| 0 <= k < |ps| && ps[k].caption == p.caption;
      assert qs[k].caption == qs[|ps|].caption;
    } else {
      forall i, j | 0 <= i < j < |qs| ensures qs[i].caption != qs[j].caption {
        if j == |ps| {
          assert qs[i] == ps[i];
        } else {
          assert qs[i] == ps[i] && qs[j] == ps[j];
        }
      }
    }
  }

  /** `r` is the longest prefix of `m` whose captions are pairwise distinct,
      and `flag` says whether it falls short of the whole of `m`. */
  predicate IsLongestDistinctPrefix(r: seq<Photo>, m: seq<Photo>, flag: bool)
    reads m
  {
    |r| <= |m| && r == m[..|r|] && CaptionsDistinct(r) &&
    (flag <==> |r| < |m|) &&
    (|r| < |m| ==> !CaptionsDistinct(m[..|r| + 1]))
  }

  /** Visiting one more photo keeps the state the longest distinct prefix of
      the matching photos seen so far. */
  lemma StepKeepsLongestDistinctPrefix(st: State, m: seq<Photo>, p: Photo, person: string, location: string)
    requires IsLongestDistinctPrefix(st.results, m, st.alreadyAdded)
    requires Matches(p, person, location)
    ensures IsLongestDistinctPrefix(Step(st, p, person, location).results, m + [p], Step(st, p, person, location).alreadyAdded)
  {
    var r := st.results;
    var m' := m + [p];
    if st.alreadyAdded {
      assert m'[..|r|] == m[..|r|] && m'[..|r| + 1] == m[..|r| + 1];
    } else {
      assert r == m && m'[..|r|] == m && m'[..|r| + 1] == r + [p];
      CaptionsDistinctSnoc(r, p);
    }
  }

  /** The search results are the longest prefix of the matching photos whose
      captions are pairwise distinct, and alreadyAdded is set exactly when
      that prefix falls short of all the matching photos. */
  lemma {:induction false} RunIsLongestDistinctPrefix(photos: seq<Photo>, person: string, location: string)
    ensures IsLongestDistinctPrefix(Run(photos, person, location).results, Matching(photos, person, location),
                                    Run(photos, person, location).alreadyAdded)
  {
    if photos != [] {
      var init := photos[..|photos| - 1];
      var p := photos[|photos| - 1];
      RunIsLongestDistinctPrefix(init, person, location);
      assert Run(photos, person, location) == Step(Run(init, person, location), p, person, location);
      assert Matching(photos, person, location) ==
             Matching(init, person, location) + (if Matches(p, person, location) then [p] else []);
      if Matches(p, person, location) {
        StepKeepsLongestDistinctPrefix(Run(init, person, location), Matching(init, person, location), p, person, location);
        assert IsLongestDistinctPrefix(Run(photos, person, location).results, Matching(photos, person, location),
                                    Run(photos, person, location).alreadyAdded);
      } else {
        assert Run(photos, person, location) == Run(init, person, location);
        assert Matching(photos, person, location) == Matching(init, person, location);
      }
    }
  }

  /** Every result is one of the visited photos and matches the queries. */
  lemma ResultsMatch(photos: seq<Photo>, person: string, location: string, x: Photo)
    requires x in Run(photos, person, location).results
    ensures x in photos && Matches(x, person, location)
  {
    RunIsLongestDistinctPrefix(photos, person, location);
    var r := Run(photos, person, location).results;
    var m := Matching(photos, person, location);
    var k :| 0 <= k < |r| && r[k] == x;
    assert m[k] == x;
  }

  /** With both queries empty no tag value passes the test, so no photo matches. */
  lemma {:induction false} NothingMatchesEmptyQueries(photos: seq<Photo>)
    ensures Matching(photos, "", "") == []
  {
    if photos != [] {
      NothingMatchesEmptyQueries(photos[..|photos| - 1]);
      assert !Matches(photos[|photos| - 1], "", "");
    }
  }

  /** With both queries empty the search finds nothing. */
  lemma EmptyQueriesFindNothing(photos: seq<Photo>)
    ensures Run(photos, "", "").results == []
  {
    RunIsLongestDistinctPrefix(photos, "", "");
    NothingMatchesEmptyQueries(photos);
  }

  /** When the matching photos have pairwise distinct captions, every one of
      them is found, in visiting order. */
  lemma AllFoundWhenCaptionsDistinct(photos: seq<Photo>, person: string, location: string)
    requires CaptionsDistinct(Matching(photos, person, location))
    ensures Run(photos, person, location).results == Matching(photos, person, location)
  {
    RunIsLongestDistinctPrefix(photos, person, location);
  }

  /** Once alreadyAdded is set, visiting further photos adds nothing: the
      results stay as they were for the rest of the search. */
  lemma {:induction false} AlreadyAddedStopsSearch(photos: seq<Photo>, more: seq<Photo>, person: string, location: string)
    requires Run(photos, person, location).alreadyAdded
    ensures Run(photos + more, person, location) == Run(photos, person, location)
    decreases |more|
  {
    if more == [] {
      assert photos + more == photos;
    } else {
      var shorter := more[..|more| - 1];
      AlreadyAddedStopsSearch(photos, shorter, person, location);
      var all := photos + more;
      assert all[..|all| - 1] == photos + shorter;
    }
  }

  /** The flag is set by the first matching photo whose caption repeats a
      result's, even when that photo is the very same object as the result
      (a photo copied into a second album). */
  lemma FirstRepeatSetsFlag(photos: seq<Photo>, p: Photo, person: string, location: string)
    requires !Run(photos, person, location).alreadyAdded
    requires Matches(p, person, location)
    requires HasCaption(Run(photos, person, location).results, p.caption)
    ensures Run(photos + [p], person, location) == State(Run(photos, person, location).results, true)
  {
    assert (photos + [p])[..|photos|] == photos;
  }
}
