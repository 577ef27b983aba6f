/**
 * The recipe of the day: a pick from the collection stored with the date it was
 * made on, reused for the rest of that day and replaced on a later day.
 */
module Daily {
  import opened Wrappers
  import opened Recipes

  /** The stored pick: the day (as `Date.prototype.toDateString` prints it) and the recipe. */
  datatype StoredPick = StoredPick(date: string, receta: Recipe)

  /** The recipe shown as the recipe of the day, and the stored pick (`None` when absent or unreadable). */
  datatype DailyState = DailyState(recetaDelDia: Option<Recipe>, guardada: Option<StoredPick>)

  /** `Math.floor(random * n)` for a `Math.random()` value in [0, 1): an index of a collection of `n` elements. */
  function RandomIndex(random: real, n: nat): (i: nat)
    requires 0.0 <= random < 1.0
    requires n > 0
    ensures i < n
  {
    assert random * n as real < n as real by {
      assert (1.0 - random) * n as real > 0.0;
    }
    (random * n as real).Floor
  }

  /**
   * The recipe-of-the-day effect for the day `hoy` and a `Math.random()` value:
   * nothing happens on an empty collection; a pick stored today is shown again;
   * otherwise a recipe is drawn and shown, and stored with today's date.
   */
  function PickRecetaDelDia(recetas: seq<Recipe>, s: DailyState, hoy: string, random: real): (r: DailyState)
    requires 0.0 <= random < 1.0
    ensures |recetas| == 0 ==> r == s
    ensures |recetas| > 0 ==>
      r.guardada.Some? && r.guardada.value.date == hoy && r.recetaDelDia == Some(r.guardada.value.receta)
    ensures r.guardada != s.guardada ==> r.guardada.value.receta in recetas
  {
    if |recetas| == 0 then s
    else if s.guardada.Some? && s.guardada.value.date == hoy then
      s.(recetaDelDia := Some(s.guardada.value.receta))
    else
      var receta := recetas[RandomIndex(random, |recetas|)];
      DailyState(Some(receta), Some(StoredPick(hoy, receta)))
  }

  /**
   * The three cases of the effect: an empty collection changes nothing; a pick
   * stored today is shown and kept; otherwise the shown recipe is a member of the
   * collection, the one at the drawn index, and it is stored with today's date.
   */
  lemma PickRecetaDelDiaSpec(recetas: seq<Recipe>, s: DailyState, hoy: string, random: real)
    requires 0.0 <= random < 1.0
    ensures var t := PickRecetaDelDia(recetas, s, hoy, random);
      && (|recetas| == 0 ==> t == s)
      && (|recetas| > 0 && s.guardada.Some? && s.guardada.value.date == hoy ==>
            t.guardada == s.guardada && t.recetaDelDia == Some(s.guardada.value.receta))
      && (|recetas| > 0 && !(s.guardada.Some? && s.guardada.value.date == hoy) ==>
            && t.recetaDelDia == Some(recetas[RandomIndex(random, |recetas|)])
            && exists i :: 0 <= i < |recetas| && t.recetaDelDia == Some(recetas[i]) &&
                 t.guardada == Some(StoredPick(hoy, recetas[i])))
  {
    if |recetas| > 0 && !(s.guardada.Some? && s.guardada.value.date == hoy) {
      var i := RandomIndex(random, |recetas|);
      assert PickRecetaDelDia(recetas, s, hoy, random).recetaDelDia == Some(recetas[i]);
    }
  }

  /**
   * Running the effect again on the same day, with any random value, shows the
   * same recipe and keeps the same stored pick: the pick lasts for the day.
   */
  lemma SameDaySamePick(recetas: seq<Recipe>, s: DailyState, hoy: string, r1: real, r2: real)
    requires 0.0 <= r1 < 1.0 && 0.0 <= r2 < 1.0
    ensures var once := PickRecetaDelDia(recetas, s, hoy, r1);
      PickRecetaDelDia(recetas, once, hoy, r2) == once
  {
  }

  /**
   * On a day other than the stored one, a non-empty collection gets a pick from
   * the collection and the stored date becomes today.
   */
  lemma NewDayNewPick(recetas: seq<Recipe>, s: DailyState, hoy: string, random: real)
    requires 0.0 <= random < 1.0
    requires |recetas| > 0
    requires s.guardada.Some? && s.guardada.value.date != hoy
    ensures var t := PickRecetaDelDia(recetas, s, hoy, random);
      t.guardada.Some? && t.guardada.value.date == hoy &&
      t.recetaDelDia == Some(t.guardada.value.receta) && t.guardada.value.receta in recetas
  {
  }
}
