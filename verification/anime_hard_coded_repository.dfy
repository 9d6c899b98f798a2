/**
 * `AnimeHardCodedRepository` over the shared list held by `AnimeData`: an
 * ordered list that `save` appends to, `delete` removes the first element
 * with the same id from (`ArrayList.remove(Object)` with id-only equality),
 * and `update` changes by a save followed by a delete.
 */
module AnimeHardCoded {
  import opened Outcomes
  import opened Domain

  /** The list `AnimeData` starts with. */
  function Seed(): seq<Anime>
  {
    [Anime(1, "Naruto"), Anime(2, "Dragon Ball"), Anime(3, "One Piece"), Anime(4, "Pokemon")]
  }

  /** No two elements share an id. */
  predicate IdsDistinct(s: seq<Anime>)
  {
    forall i, j :: 0 <= i < j < |s| ==> s[i].id != s[j].id
  }

  /** Some element has this id. */
  predicate HasId(s: seq<Anime>, id: int)
  {
    exists i :: 0 <= i < |s| && s[i].id == id
  }

  // ---------------------------------------------------------------------------
  // Case-insensitive name comparison, restricted to ASCII letters.

  /** Lower-case an ASCII letter; any other character is left as it is. */
  function ToLowerAscii(c: char): (l: char)
    ensures 'A' <= c <= 'Z' ==> 'a' <= l <= 'z' && l as int == c as int + 32
    ensures !('A' <= c <= 'Z') ==> l == c
  {
    if 'A' <= c <= 'Z' then (c as int + 32) as char else c
  }

  /** `String.toLowerCase` over ASCII: fold every character. */
  function LowerAscii(s: string): (l: string)
    ensures |l| == |s|
    ensures forall i :: 0 <= i < |s| ==> l[i] == ToLowerAscii(s[i])
  {
    seq(|s|, i requires 0 <= i < |s| => ToLowerAscii(s[i]))
  }

  /**
   * `String.equalsIgnoreCase` over ASCII: same length, equal after folding each
   * character. It holds exactly when both strings lower-case to the same string.
   */
  predicate EqualsIgnoreCase(a: string, b: string): (r: bool)
    ensures r <==> LowerAscii(a) == LowerAscii(b)
  {
    |a| == |b| && forall i :: 0 <= i < |a| ==> ToLowerAscii(a[i]) == ToLowerAscii(b[i])
  }

  /** Ignoring case is an equivalence: reflexive, symmetric and transitive. */
  lemma {:induction false} EqualsIgnoreCaseIsEquivalence(a: string, b: string, c: string)
    ensures EqualsIgnoreCase(a, a)
    ensures EqualsIgnoreCase(a, b) ==> EqualsIgnoreCase(b, a)
    ensures EqualsIgnoreCase(a, b) && EqualsIgnoreCase(b, c) ==> EqualsIgnoreCase(a, c)
  {
  }

  // ---------------------------------------------------------------------------
  // Specification functions over the list.

  /** Position of the first element whose id is `id`, or `|s|` when there is none. */
  function IndexOfId(s: seq<Anime>, id: int): (k: nat)
    ensures k <= |s|
    ensures forall j :: 0 <= j < k ==> s[j].id != id
    ensures k < |s| ==> s[k].id == id
    ensures k == |s| <==> !HasId(s, id)
  {
    if s == [] then 0
    else if s[0].id == id then 0
    else 1 + IndexOfId(s[1..], id)
  }

  /** `ArrayList.remove(Object)` under id-only equality: drop the first element with this id, if any. */
  function RemoveFirstWithId(s: seq<Anime>, id: int): (r: seq<Anime>)
    ensures multiset(r) <= multiset(s)
    ensures forall a :: a in s && a.id != id ==> a in r
  {
    if s == [] then []
    else
      assert s == [s[0]] + s[1..];
      if s[0].id == id then s[1..]
      else [s[0]] + RemoveFirstWithId(s[1..], id)
  }

  /** The stream filter of `findByName`: elements whose name equals `name` ignoring case, in list order. */
  function FilterByName(s: seq<Anime>, name: string): (r: seq<Anime>)
    ensures |r| <= |s|
    ensures forall i :: 0 <= i < |r| ==> EqualsIgnoreCase(r[i].name, name)
  {
    if s == [] then []
    else (if EqualsIgnoreCase(s[0].name, name) then [s[0]] else []) + FilterByName(s[1..], name)
  }

  // ---------------------------------------------------------------------------
  // Properties of delete.

  /** The list without its element at position `k`. */
  function Cut(s: seq<Anime>, k: nat): (r: seq<Anime>)
    requires k < |s|
    ensures |r| == |s| - 1
    ensures forall i :: 0 <= i < |r| ==> r[i] == if i < k then s[i] else s[i + 1]
  {
    s[..k] + s[k + 1..]
  }

  /** Cutting behind a new first element is cutting one position further on. */
  lemma {:induction false} CutBehindHead(x: Anime, t: seq<Anime>, k: nat)
    requires k < |t|
    ensures [x] + Cut(t, k) == Cut([x] + t, k + 1)
  {
  }

  /** Cutting position `k` takes exactly the element `s[k]` out of the list's multiset. */
  lemma {:induction false} CutMultiset(s: seq<Anime>, k: nat)
    requires k < |s|
    ensures multiset(Cut(s, k)) + multiset{s[k]} == multiset(s)
  {
    assert s == s[..k] + [s[k]] + s[k + 1..];
  }

  /**
   * Removing the first element with `id` is cutting out the element at
   * `IndexOfId`: everything before it and everything after it stays, in order.
   */
  lemma {:induction false} RemoveFirstWithIdCutsFirstMatch(s: seq<Anime>, id: int)
    ensures IndexOfId(s, id) < |s| ==> RemoveFirstWithId(s, id) == Cut(s, IndexOfId(s, id))
    ensures IndexOfId(s, id) == |s| ==> RemoveFirstWithId(s, id) == s
  {
    if s == [] {
    } else if s[0].id == id {
      assert Cut(s, 0) == s[1..];
    } else {
      var t := s[1..];
      assert s == [s[0]] + t;
      RemoveFirstWithIdCutsFirstMatch(t, id);
      var k := IndexOfId(t, id);
      if k < |t| {
        CutBehindHead(s[0], t, k);
      }
    }
  }

  /** Delete shrinks the list by exactly one when the id is present and keeps it whole otherwise. */
  lemma {:induction false} RemoveFirstWithIdLength(s: seq<Anime>, id: int)
    ensures HasId(s, id) ==> |RemoveFirstWithId(s, id)| == |s| - 1
    ensures !HasId(s, id) ==> RemoveFirstWithId(s, id) == s
  {
    RemoveFirstWithIdCutsFirstMatch(s, id);
  }

  /** Delete removes exactly one element, the first one with the id, and nothing else. */
  lemma {:induction false} RemoveFirstWithIdMultiset(s: seq<Anime>, id: int)
    requires HasId(s, id)
    ensures multiset(RemoveFirstWithId(s, id)) + multiset{s[IndexOfId(s, id)]} == multiset(s)
  {
    RemoveFirstWithIdCutsFirstMatch(s, id);
    CutMultiset(s, IndexOfId(s, id));
  }

  /** Cutting an element out of a list with distinct ids leaves distinct ids, none of them the cut one. */
  lemma {:induction false} CutOfDistinct(s: seq<Anime>, k: nat)
    requires IdsDistinct(s) && k < |s|
    ensures IdsDistinct(Cut(s, k))
    ensures !HasId(Cut(s, k), s[k].id)
  {
  }

  /** With distinct ids, no element with the deleted id remains. */
  lemma {:induction false} RemoveFirstWithIdLeavesNoMatch(s: seq<Anime>, id: int)
    requires IdsDistinct(s)
    ensures !HasId(RemoveFirstWithId(s, id), id)
    ensures IdsDistinct(RemoveFirstWithId(s, id))
  {
    RemoveFirstWithIdCutsFirstMatch(s, id);
    var k := IndexOfId(s, id);
    if k < |s| {
      CutOfDistinct(s, k);
    }
  }

  // ---------------------------------------------------------------------------
  // Properties of update (save, then delete).

  /** Appending does not move the first match of an id already present. */
  lemma {:induction false} IndexOfIdAppend(s: seq<Anime>, a: Anime)
    ensures IndexOfId(s + [a], a.id) == IndexOfId(s, a.id)
  {
    if s != [] && s[0].id != a.id {
      assert (s + [a])[1..] == s[1..] + [a];
      IndexOfIdAppend(s[1..], a);
    }
  }

  /**
   * Update of an id already in the list: the first element with that id is
   * gone, the other elements keep their relative order, the new record is
   * last, and the length is unchanged.
   */
  lemma {:induction false} UpdateReplacesFirstMatchAndMovesItLast(s: seq<Anime>, a: Anime)
    requires HasId(s, a.id)
    ensures RemoveFirstWithId(s + [a], a.id) == Cut(s, IndexOfId(s, a.id)) + [a]
    ensures |RemoveFirstWithId(s + [a], a.id)| == |s|
  {
    var t := s + [a];
    var k := IndexOfId(s, a.id);
    IndexOfIdAppend(s, a);
    RemoveFirstWithIdCutsFirstMatch(t, a.id);
    var r, c := Cut(t, k), Cut(s, k) + [a];
    assert |r| == |c|;
    forall i | 0 <= i < |r| ensures r[i] == c[i] {
      if i < |s| - 1 { assert c[i] == Cut(s, k)[i]; }
    }
  }

  /** Update of an id not in the list: the appended record is removed again and the list is as before. */
  lemma {:induction false} UpdateOfAbsentIdIsNoOp(s: seq<Anime>, a: Anime)
    requires !HasId(s, a.id)
    ensures RemoveFirstWithId(s + [a], a.id) == s
  {
    var t := s + [a];
    IndexOfIdAppend(s, a);
    RemoveFirstWithIdCutsFirstMatch(t, a.id);
    assert Cut(t, |s|) == s;
  }

  /** With distinct ids, update keeps ids distinct and a later lookup of the id finds the new record. */
  lemma {:induction false} UpdateThenFindGivesNewRecord(s: seq<Anime>, a: Anime)
    requires IdsDistinct(s) && HasId(s, a.id)
    ensures var r := RemoveFirstWithId(s + [a], a.id);
            IdsDistinct(r) && IndexOfId(r, a.id) == |r| - 1 && r[|r| - 1] == a
  {
    var k := IndexOfId(s, a.id);
    UpdateReplacesFirstMatchAndMovesItLast(s, a);
    CutOfDistinct(s, k);
    var rest := Cut(s, k);
    var r := rest + [a];
    forall i | 0 <= i < |rest| ensures r[i].id != a.id {
      assert r[i] == rest[i];
    }
    forall i, j | 0 <= i < j < |r| ensures r[i].id != r[j].id {
      if j < |rest| { assert r[i] == rest[i] && r[j] == rest[j]; }
    }
    var last := |r| - 1;
    assert r[last] == a;
    assert HasId(r, a.id);
  }

  // ---------------------------------------------------------------------------
  // Properties of findByName.

  /** An element is in the filter's result exactly when it is in the list and its name matches. */
  lemma {:induction false} FilterByNameMembers(s: seq<Anime>, name: string, a: Anime)
    ensures a in FilterByName(s, name) <==> a in s && EqualsIgnoreCase(a.name, name)
  {
    if s != [] {
      FilterByNameMembers(s[1..], name, a);
      assert s == [s[0]] + s[1..];
    }
  }

  /** The filter distributes over concatenation, so it keeps the list's order. */
  lemma {:induction false} FilterByNameAppend(s: seq<Anime>, t: seq<Anime>, name: string)
    ensures FilterByName(s + t, name) == FilterByName(s, name) + FilterByName(t, name)
  {
    if s == [] {
      assert s + t == t;
    } else {
      var head := if EqualsIgnoreCase(s[0].name, name) then [s[0]] else [];
      assert (s + t)[0] == s[0];
      assert (s + t)[1..] == s[1..] + t;
      FilterByNameAppend(s[1..], t, name);
      calc {
        FilterByName(s + t, name);
        head + FilterByName(s[1..] + t, name);
        head + (FilterByName(s[1..], name) + FilterByName(t, name));
        (head + FilterByName(s[1..], name)) + FilterByName(t, name);
        FilterByName(s, name) + FilterByName(t, name);
      }
    }
  }

  /** The filter returns the whole list exactly when every name matches. */
  lemma {:induction false} FilterByNameKeepsAll(s: seq<Anime>, name: string)
    ensures FilterByName(s, name) == s <==> forall i :: 0 <= i < |s| ==> EqualsIgnoreCase(s[i].name, name)
  {
    if s != [] {
      FilterByNameKeepsAll(s[1..], name);
      assert s == [s[0]] + s[1..];
    }
  }

  /** The filter returns the empty list exactly when no name matches. */
  lemma {:induction false} FilterByNameEmpty(s: seq<Anime>, name: string)
    ensures FilterByName(s, name) == [] <==> forall i :: 0 <= i < |s| ==> !EqualsIgnoreCase(s[i].name, name)
  {
    if FilterByName(s, name) != [] {
      var a := FilterByName(s, name)[0];
      FilterByNameMembers(s, name, a);
    } else {
      forall i | 0 <= i < |s| ensures !EqualsIgnoreCase(s[i].name, name) {
        FilterByNameMembers(s, name, s[i]);
      }
    }
  }

  /** A lookup of "naruto" in the seeded list finds the id-1 record, whatever the case. */
  lemma {:induction false} SeedFindByNameIgnoresCase()
    ensures FilterByName(Seed(), "naruto") == [Anime(1, "Naruto")]
  {
  }

  /** The seeded list has distinct ids 1 to 4. */
  lemma {:induction false} SeedIdsDistinct()
    ensures IdsDistinct(Seed())
    ensures forall i :: 0 <= i < |Seed()| ==> Seed()[i].id == i + 1
  {
  }

  // ---------------------------------------------------------------------------
  // The shared list and the repository over it.

  /** `AnimeData`: the one mutable list every repository instance shares. */
  class AnimeData {
    var animes: seq<Anime>

    constructor ()
      ensures animes == Seed()
    {
      animes := Seed();
    }
  }

  class AnimeHardCodedRepository {
    const animeData: AnimeData

    constructor (animeData: AnimeData)
      ensures this.animeData == animeData
    {
      this.animeData := animeData;
    }

    /** `findAll`: the shared list as it stands. */
    method FindAll() returns (animes: seq<Anime>)
      ensures animes == animeData.animes
    {
      animes := animeData.animes;
    }

    /** `findById`: the first element with this id, or nothing when no element has it. */
    method FindById(id: int) returns (r: Option<Anime>)
      ensures r.None? <==> !HasId(animeData.animes, id)
      ensures r.Some? ==> exists i :: 0 <= i < |animeData.animes| && animeData.animes[i] == r.value
                                      && (forall j :: 0 <= j < i ==> animeData.animes[j].id != id)
      ensures r.Some? ==> r.value.id == id
    {
      var k := IndexOfId(animeData.animes, id);
      if k < |animeData.animes| {
        r := Some(animeData.animes[k]);
      } else {
        r := None;
      }
    }

    /**
     * `findByName`: a missing name (`null`) gives the whole list; otherwise the
     * elements whose name matches ignoring case, in list order.
     */
    method FindByName(name: Option<string>) returns (animes: seq<Anime>)
      ensures name.None? ==> animes == animeData.animes
      ensures name.Some? ==> animes == FilterByName(animeData.animes, name.value)
      ensures name.Some? ==> forall a :: a in animes <==> a in animeData.animes && EqualsIgnoreCase(a.name, name.value)
    {
      if name.None? {
        animes := animeData.animes;
      } else {
        animes := FilterByName(animeData.animes, name.value);
        forall a ensures a in animes <==> a in animeData.animes && EqualsIgnoreCase(a.name, name.value) {
          FilterByNameMembers(animeData.animes, name.value, a);
        }
      }
    }

    /** `save`: append to the shared list and return the record. */
    method Save(anime: Anime) returns (saved: Anime)
      modifies animeData
      ensures animeData.animes == old(animeData.animes) + [anime]
      ensures saved == anime
    {
      animeData.animes := animeData.animes + [anime];
      saved := anime;
    }

    /** `delete`: remove the first element with the record's id; nothing changes when there is none. */
    method Delete(anime: Anime)
      modifies animeData
      ensures animeData.animes == RemoveFirstWithId(old(animeData.animes), anime.id)
      ensures var s, k := old(animeData.animes), IndexOfId(old(animeData.animes), anime.id);
              animeData.animes == if k < |s| then Cut(s, k) else s
    {
      RemoveFirstWithIdCutsFirstMatch(animeData.animes, anime.id);
      animeData.animes := RemoveFirstWithId(animeData.animes, anime.id);
    }

    /**
     * `update`: save, then delete. When the id was present its first element
     * is dropped and the record ends up last; otherwise the list is unchanged.
     */
    method Update(anime: Anime)
      modifies animeData
      ensures animeData.animes == RemoveFirstWithId(old(animeData.animes) + [anime], anime.id)
      ensures var s, k := old(animeData.animes), IndexOfId(old(animeData.animes), anime.id);
              animeData.animes == if k < |s| then Cut(s, k) + [anime] else s
    {
      ghost var before := animeData.animes;
      var _ := Save(anime);
      Delete(anime);
      if HasId(before, anime.id) {
        UpdateReplacesFirstMatchAndMovesItLast(before, anime);
      } else {
        UpdateOfAbsentIdIsNoOp(before, anime);
      }
    }
  }
}
