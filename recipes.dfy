/**
 * The recipe collection and the favourites list of the catalog, with the updates
 * the component's handlers apply to them: toggling a favourite, adding a recipe
 * under a new id, replacing a recipe by id, and looking a recipe up by id.
 */
module Recipes {
  import opened Wrappers
  import opened Sequences

  /** A recipe as the catalog stores it; `id` identifies it, the rest is text. */
  datatype Recipe = Recipe(
    id: int,
    titulo: string,
    descripcion: string,
    ingredientes: string,
    instrucciones: string,
    categoria: string,
    dificultad: string,
    imagen: string)

  /** No two recipes of the collection share an id. */
  predicate UniqueIds(recetas: seq<Recipe>) {
    forall i, j :: 0 <= i < j < |recetas| ==> recetas[i].id != recetas[j].id
  }

  /** Some recipe of the collection has this id. */
  predicate HasId(recetas: seq<Recipe>, id: int) {
    exists i :: 0 <= i < |recetas| && recetas[i].id == id
  }

  // ---------------------------------------------------------------- favourites

  /** `toggleFavorito`: drop every occurrence of `id` if it is listed, otherwise append it. */
  function ToggleFavorito(favoritas: seq<int>, id: int): (r: seq<int>)
    ensures id in r <==> id !in favoritas
    ensures forall x :: x != id ==> (x in r <==> x in favoritas)
  {
    if id in favoritas then Filter(favoritas, x => x != id) else favoritas + [id]
  }

  /**
   * What a toggle does to the list itself: when `id` is listed, every occurrence
   * goes and the others keep their order and multiplicity; when it is not, it is
   * appended at the end.
   */
  lemma ToggleFavoritoEffect(favoritas: seq<int>, id: int)
    ensures id in favoritas ==>
      && IsSubsequence(ToggleFavorito(favoritas, id), favoritas)
      && multiset(ToggleFavorito(favoritas, id)) == multiset(favoritas)[id := 0]
    ensures id !in favoritas ==> ToggleFavorito(favoritas, id) == favoritas + [id]
  {
    if id in favoritas {
      var p := (x: int) => x != id;
      FilterIsSubsequence(favoritas, p);
      var r := Filter(favoritas, p);
      forall x ensures multiset(r)[x] == multiset(favoritas)[id := 0][x] {
        FilterCount(favoritas, p, x);
      }
      assert multiset(r) == multiset(favoritas)[id := 0];
    }
  }

  /** A duplicate-free favourites list stays duplicate-free. */
  lemma ToggleFavoritoNoDuplicates(favoritas: seq<int>, id: int)
    requires NoDuplicates(favoritas)
    ensures NoDuplicates(ToggleFavorito(favoritas, id))
  {
    if id in favoritas {
      FilterNoDuplicates(favoritas, x => x != id);
    }
  }

  /** On a duplicate-free list an element occurs exactly once. */
  lemma {:induction false} NoDuplicatesCount(s: seq<int>, x: int)
    requires NoDuplicates(s) && x in s
    ensures multiset(s)[x] == 1
  {
    assert s == [s[0]] + s[1..];
    if s[0] == x {
      assert x !in s[1..];
    } else {
      NoDuplicatesCount(s[1..], x);
    }
  }

  /**
   * Toggling the same id twice. From "not a favourite" the list comes back exactly;
   * from "a favourite" (on a duplicate-free list) the same ids come back, the toggled
   * one moved to the end.
   */
  lemma ToggleFavoritoTwice(favoritas: seq<int>, id: int)
    ensures id !in favoritas ==> ToggleFavorito(ToggleFavorito(favoritas, id), id) == favoritas
    ensures id in favoritas ==>
      ToggleFavorito(ToggleFavorito(favoritas, id), id) == Filter(favoritas, x => x != id) + [id]
    ensures id in favoritas && NoDuplicates(favoritas) ==>
      multiset(ToggleFavorito(ToggleFavorito(favoritas, id), id)) == multiset(favoritas)
  {
    var p := (x: int) => x != id;
    if id !in favoritas {
      FilterAppend(favoritas, [id], p);
      FilterAll(favoritas, p);
      assert Filter([id], p) == [];
    } else if NoDuplicates(favoritas) {
      ToggleFavoritoEffect(favoritas, id);
      NoDuplicatesCount(favoritas, id);
      var once := ToggleFavorito(favoritas, id);
      assert ToggleFavorito(once, id) == once + [id];
      assert multiset(once + [id]) == multiset(favoritas)[id := 0] + multiset{id};
    }
  }

  // ---------------------------------------------------------------- recipe list

  /**
   * `handleAddReceta`: the draft, under the id the caller supplies (the clock
   * reading), goes at the end; the recipes already there are untouched.
   */
  function AddReceta(recetas: seq<Recipe>, draft: Recipe, newId: int): (r: seq<Recipe>)
    ensures |r| == |recetas| + 1
    ensures r[..|recetas|] == recetas
    ensures r[|recetas|] == draft.(id := newId)
  {
    recetas + [draft.(id := newId)]
  }

  /** Adding under an id nobody has keeps the ids unique. */
  lemma AddRecetaUniqueIds(recetas: seq<Recipe>, draft: Recipe, newId: int)
    requires UniqueIds(recetas)
    requires !HasId(recetas, newId)
    ensures UniqueIds(AddReceta(recetas, draft, newId))
  {
    var r := AddReceta(recetas, draft, newId);
    forall i, j | 0 <= i < j < |r| ensures r[i].id != r[j].id {
      if j == |recetas| {
        assert r[i] == recetas[i];
      } else {
        assert r[i] == recetas[i] && r[j] == recetas[j];
      }
    }
  }

  /**
   * `handleEditReceta`: every recipe whose id is that of `updated` is replaced by
   * `updated`, every other recipe stays where and what it was.
   */
  function EditReceta(recetas: seq<Recipe>, updated: Recipe): (r: seq<Recipe>)
    ensures |r| == |recetas|
    ensures forall i :: 0 <= i < |r| ==>
      r[i] == if recetas[i].id == updated.id then updated else recetas[i]
  {
    if recetas == [] then []
    else [if recetas[0].id == updated.id then updated else recetas[0]] + EditReceta(recetas[1..], updated)
  }

  /** Editing a recipe whose id is not in the collection changes nothing. */
  lemma EditRecetaNoMatch(recetas: seq<Recipe>, updated: Recipe)
    requires !HasId(recetas, updated.id)
    ensures EditReceta(recetas, updated) == recetas
  {
  }

  /** Editing keeps every position's id, so it keeps the ids unique. */
  lemma EditRecetaUniqueIds(recetas: seq<Recipe>, updated: Recipe)
    requires UniqueIds(recetas)
    ensures UniqueIds(EditReceta(recetas, updated))
  {
    var r := EditReceta(recetas, updated);
    assert forall i :: 0 <= i < |r| ==> r[i].id == recetas[i].id;
  }

  /** Position `i` holds the first recipe with this id. */
  predicate FirstWithId(recetas: seq<Recipe>, i: int, id: int) {
    && 0 <= i < |recetas|
    && recetas[i].id == id
    && forall j :: 0 <= j < i ==> recetas[j].id != id
  }

  /** `recetas.find(r => r.id === id)`: the first recipe with this id, if any. */
  function Find(recetas: seq<Recipe>, id: int): (r: Option<Recipe>)
    ensures r.None? <==> !HasId(recetas, id)
    ensures r.Some? ==> exists i :: FirstWithId(recetas, i, id) && recetas[i] == r.value
  {
    if recetas == [] then None
    else if recetas[0].id == id then
      assert FirstWithId(recetas, 0, id);
      Some(recetas[0])
    else
      var r := Find(recetas[1..], id);
      assert r.Some? ==> exists i :: FirstWithId(recetas, i, id) && recetas[i] == r.value by {
        if r.Some? {
          var i :| FirstWithId(recetas[1..], i, id) && recetas[1..][i] == r.value;
          assert recetas[i + 1] == r.value;
          forall j | 0 <= j < i + 1 ensures recetas[j].id != id {
            if j > 0 { assert recetas[j] == recetas[1..][j - 1]; }
          }
          assert FirstWithId(recetas, i + 1, id);
        }
      }
      assert HasId(recetas[1..], id) ==> HasId(recetas, id) by {
        if HasId(recetas[1..], id) {
          var i :| 0 <= i < |recetas[1..]| && recetas[1..][i].id == id;
          assert recetas[i + 1].id == id;
        }
      }
      r
  }

  /** With unique ids, looking up the id of any recipe of the collection finds that recipe. */
  lemma FindUnique(recetas: seq<Recipe>, k: nat)
    requires UniqueIds(recetas)
    requires k < |recetas|
    ensures Find(recetas, recetas[k].id) == Some(recetas[k])
  {
    var r := Find(recetas, recetas[k].id);
    var i :| FirstWithId(recetas, i, recetas[k].id) && recetas[i] == r.value;
    assert i == k;
  }

  /** A recipe just added under a fresh id is found by that id. */
  lemma AddRecetaThenFind(recetas: seq<Recipe>, draft: Recipe, newId: int)
    requires !HasId(recetas, newId)
    ensures Find(AddReceta(recetas, draft, newId), newId) == Some(draft.(id := newId))
  {
    var r := AddReceta(recetas, draft, newId);
    assert r[|recetas|].id == newId;
    assert HasId(r, newId);
    var found := Find(r, newId);
    assert found.Some?;
    var i :| FirstWithId(r, i, newId) && r[i] == found.value;
    assert i == |recetas|;
  }

  /** After an edit of a recipe that exists, its id finds the edited version. */
  lemma {:induction false} EditRecetaThenFind(recetas: seq<Recipe>, updated: Recipe)
    requires HasId(recetas, updated.id)
    ensures Find(EditReceta(recetas, updated), updated.id) == Some(updated)
  {
    var r := EditReceta(recetas, updated);
    if recetas[0].id == updated.id {
      assert r[0] == updated;
    } else {
      var k :| 0 <= k < |recetas| && recetas[k].id == updated.id;
      assert recetas[1..][k - 1].id == updated.id;
      EditRecetaThenFind(recetas[1..], updated);
      assert r[1..] == EditReceta(recetas[1..], updated);
    }
  }
}
