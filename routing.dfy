/**
 * Hash routing of the detail view: the fragment `receta-<id>` selects the first
 * recipe with that id, any other fragment returns to the list.
 */
module Routing {
  import opened Wrappers
  import opened Text
  import opened Recipes

  /** The fragment prefix of a recipe's detail link. */
  const PREFIX: string := "receta-"

  /**
   * `handleHashChange`, given `location.hash` (with its leading `#`) and the current
   * selection: the fragment after `#` must start with `receta-`; its second
   * `-`-separated piece goes through `parseInt` and the first recipe with that id
   * becomes the selection. A fragment without the prefix clears the selection; an
   * id that does not parse or matches no recipe keeps it.
   */
  function HandleHashChange(recetas: seq<Recipe>, hash: string, selected: Option<Recipe>): (r: Option<Recipe>)
    ensures r == None || r == selected || r.value in recetas
  {
    var fragment := DropFirst(hash);
    if StartsWith(fragment, PREFIX) then
      var parts := Split(fragment, '-');
      var id := if |parts| >= 2 then ParseInt(parts[1]) else None;
      match id
      case None => selected
      case Some(n) =>
        match Find(recetas, n)
        case Some(found) => Some(found)
        case None => selected
    else None
  }

  /** The id a routed fragment names: `parseInt` of the text after `receta-` up to the next `-`. */
  function RoutedId(fragment: string): Option<int>
    requires StartsWith(fragment, PREFIX)
  {
    ParseInt(UpTo(fragment[|PREFIX|..], '-'))
  }

  /**
   * The routing rule, both ways. Without the prefix the selection is cleared. With it,
   * the selection becomes the first recipe whose id is the routed id when there is
   * one, and stays as it was otherwise.
   */
  lemma HandleHashChangeSpec(recetas: seq<Recipe>, hash: string, selected: Option<Recipe>)
    ensures var fragment := DropFirst(hash);
      var r := HandleHashChange(recetas, hash, selected);
      && (!StartsWith(fragment, PREFIX) ==> r == None)
      && (StartsWith(fragment, PREFIX) ==>
            var id := RoutedId(fragment);
            if id.Some? && HasId(recetas, id.value)
            then exists i :: FirstWithId(recetas, i, id.value) && r == Some(recetas[i])
            else r == selected)
  {
    var fragment := DropFirst(hash);
    if StartsWith(fragment, PREFIX) {
      assert PREFIX == "receta" + ['-'];
      SplitAfterPrefix("receta", '-', fragment);
      var parts := Split(fragment, '-');
      assert |parts| >= 2 && parts[1] == UpTo(fragment[|PREFIX|..], '-');
      var id := RoutedId(fragment);
      if id.Some? {
        var found := Find(recetas, id.value);
        if found.Some? {
          var i :| FirstWithId(recetas, i, id.value) && recetas[i] == found.value;
          assert HandleHashChange(recetas, hash, selected) == Some(recetas[i]);
        }
      }
    }
  }

  /** `UpTo` of a string without the separator is the whole string. */
  lemma UpToAll(s: string, sep: char)
    requires sep !in s
    ensures UpTo(s, sep) == s
  {
  }

  /**
   * A detail link `#receta-<id>` of a recipe of a collection with unique ids
   * selects that recipe, whatever was selected before. The id is non-negative and
   * below 10^21, where JavaScript prints numbers in plain decimal.
   */
  lemma DetailLinkSelects(recetas: seq<Recipe>, k: nat, selected: Option<Recipe>)
    requires UniqueIds(recetas)
    requires k < |recetas|
    requires 0 <= recetas[k].id < 1_000_000_000_000_000_000_000
    ensures HandleHashChange(recetas, "#" + PREFIX + DecimalString(recetas[k].id), selected) == Some(recetas[k])
  {
    var digits := DecimalString(recetas[k].id);
    var hash := "#" + PREFIX + digits;
    var fragment := DropFirst(hash);
    assert fragment == PREFIX + digits;
    assert fragment[|PREFIX|..] == digits;
    UpToAll(digits, '-');
    ParseDecimalString(recetas[k].id);
    FindUnique(recetas, k);
    HandleHashChangeSpec(recetas, hash, selected);
  }

  /**
   * The detail link of a recipe with a negative id (`#receta--<digits>`) does not
   * route: the piece after the first `-` is empty, `parseInt` gives `NaN`, and
   * the selection stays as it was.
   */
  lemma NegativeIdLinkKeepsSelection(recetas: seq<Recipe>, n: nat, selected: Option<Recipe>)
    requires n > 0
    ensures HandleHashChange(recetas, "#" + PREFIX + "-" + DecimalString(n), selected) == selected
  {
    var hash := "#" + PREFIX + "-" + DecimalString(n);
    var fragment := DropFirst(hash);
    assert fragment == PREFIX + "-" + DecimalString(n);
    assert fragment[|PREFIX|..][0] == '-';
    HandleHashChangeSpec(recetas, hash, selected);
  }
}
