/**
 * The catalog component's state cells as the fields of one object, and its event
 * handlers and effects as methods that overwrite them. Each method's new state is
 * the pure update of the modules it imports; the visible list is derived from the
 * fields on demand.
 */
module Catalog {
  import opened Wrappers
  import opened Sequences
  import opened Recipes
  import opened View
  import opened Routing
  import opened Daily

  class App {
    /** `toLowerCase` and `localeCompare` of the running environment. */
    const locale: Locale

    var recetas: seq<Recipe>
    var favoritas: seq<int>
    var filtroCategoria: string
    var filtroDificultad: string
    var terminoBusqueda: string
    var ordenAlfabetico: Orden
    var recetaDelDia: Option<Recipe>
    var selectedReceta: Option<Recipe>
    /** The persisted `recetaDelDia` entry; `None` when it is missing or does not parse. */
    var recetaGuardada: Option<StoredPick>

    /**
     * The first render: the collection and the favourites come from storage when an
     * entry is there and parses (`Some`), from the seed data and the empty list
     * otherwise; every filter starts neutral, nothing is sorted, shown or selected.
     */
    constructor (locale: Locale, storedRecetas: Option<seq<Recipe>>, seed: seq<Recipe>,
                 storedFavoritas: Option<seq<int>>, storedPick: Option<StoredPick>)
      ensures this.locale == locale
      ensures recetas == storedRecetas.GetOr(seed)
      ensures favoritas == storedFavoritas.GetOr([])
      ensures filtroCategoria == TODAS && filtroDificultad == TODAS && terminoBusqueda == ""
      ensures ordenAlfabetico == SinOrden
      ensures recetaDelDia == None && selectedReceta == None
      ensures recetaGuardada == storedPick
    {
      this.locale := locale;
      recetas := storedRecetas.GetOr(seed);
      favoritas := storedFavoritas.GetOr([]);
      filtroCategoria := TODAS;
      filtroDificultad := TODAS;
      terminoBusqueda := "";
      ordenAlfabetico := SinOrden;
      recetaDelDia := None;
      selectedReceta := None;
      recetaGuardada := storedPick;
    }

    /** The current filter cells as one value. */
    function Filters(): Filtros
      reads this
    {
      Filtros(filtroCategoria, filtroDificultad, terminoBusqueda, ordenAlfabetico)
    }

    /** `recetasFiltradas`, derived from the current state. */
    function Visibles(): (v: seq<Recipe>)
      reads this
      ensures |v| <= |recetas|
      ensures forall r | r in v :: r in recetas && Visible(locale, favoritas, Filters(), r)
      ensures forall r | r in recetas && Visible(locale, favoritas, Filters(), r) :: r in v
    {
      RecetasFiltradas(locale, recetas, favoritas, Filters())
    }

    /** The favourite button of a card; a duplicate-free favourites list stays so. */
    method ToggleFavorito(id: int)
      modifies this`favoritas
      ensures favoritas == Recipes.ToggleFavorito(old(favoritas), id)
      ensures old(NoDuplicates(favoritas)) ==> NoDuplicates(favoritas)
    {
      if NoDuplicates(favoritas) {
        ToggleFavoritoNoDuplicates(favoritas, id);
      }
      favoritas := Recipes.ToggleFavorito(favoritas, id);
    }

    /**
     * Saving the add form, with `now` the clock reading used as the id. When `now`
     * is not an id already in use, the new recipe is found by it, and unique ids stay
     * unique.
     */
    method AddReceta(draft: Recipe, now: int)
      modifies this`recetas
      ensures recetas == Recipes.AddReceta(old(recetas), draft, now)
      ensures !old(HasId(recetas, now)) ==> Find(recetas, now) == Some(draft.(id := now))
      ensures old(UniqueIds(recetas)) && !old(HasId(recetas, now)) ==> UniqueIds(recetas)
    {
      if !HasId(recetas, now) {
        AddRecetaThenFind(recetas, draft, now);
        if UniqueIds(recetas) {
          AddRecetaUniqueIds(recetas, draft, now);
        }
      }
      recetas := Recipes.AddReceta(recetas, draft, now);
    }

    /** Saving the edit form: unique ids stay unique, and an existing id now finds the edited recipe. */
    method EditReceta(updated: Recipe)
      modifies this`recetas
      ensures recetas == Recipes.EditReceta(old(recetas), updated)
      ensures old(UniqueIds(recetas)) ==> UniqueIds(recetas)
      ensures old(HasId(recetas, updated.id)) ==> Find(recetas, updated.id) == Some(updated)
      ensures !old(HasId(recetas, updated.id)) ==> recetas == old(recetas)
    {
      if UniqueIds(recetas) {
        EditRecetaUniqueIds(recetas, updated);
      }
      if HasId(recetas, updated.id) {
        EditRecetaThenFind(recetas, updated);
      } else {
        EditRecetaNoMatch(recetas, updated);
      }
      recetas := Recipes.EditReceta(recetas, updated);
    }

    /** A category button: it selects the category and resets the difficulty filter. */
    method SelectCategoria(categoria: string)
      modifies this`filtroCategoria, this`filtroDificultad
      ensures filtroCategoria == categoria && filtroDificultad == TODAS
    {
      filtroCategoria := categoria;
      filtroDificultad := TODAS;
    }

    /** A difficulty button. */
    method SelectDificultad(dificultad: string)
      modifies this`filtroDificultad
      ensures filtroDificultad == dificultad
    {
      filtroDificultad := dificultad;
    }

    /** Typing in the search box. */
    method SetTerminoBusqueda(termino: string)
      modifies this`terminoBusqueda
      ensures terminoBusqueda == termino
    {
      terminoBusqueda := termino;
    }

    /** The sort button: the order is `'asc'` or `'desc'` afterwards, and flips between them. */
    method ToggleOrden()
      modifies this`ordenAlfabetico
      ensures ordenAlfabetico == NextOrden(old(ordenAlfabetico))
      ensures ordenAlfabetico != SinOrden
    {
      ordenAlfabetico := NextOrden(ordenAlfabetico);
    }

    /** A `hashchange` event (also run once at start and after every change of the collection). */
    method HashChanged(hash: string)
      modifies this`selectedReceta
      ensures selectedReceta == HandleHashChange(recetas, hash, old(selectedReceta))
    {
      selectedReceta := HandleHashChange(recetas, hash, selectedReceta);
    }

    /** The recipe-of-the-day effect for the day `hoy` and a `Math.random()` value. */
    method ShowRecetaDelDia(hoy: string, random: real)
      requires 0.0 <= random < 1.0
      modifies this`recetaDelDia, this`recetaGuardada
      ensures DailyState(recetaDelDia, recetaGuardada) ==
        PickRecetaDelDia(recetas, DailyState(old(recetaDelDia), old(recetaGuardada)), hoy, random)
    {
      var s := PickRecetaDelDia(recetas, DailyState(recetaDelDia, recetaGuardada), hoy, random);
      recetaDelDia := s.recetaDelDia;
      recetaGuardada := s.guardada;
    }

    /**
     * The effects that depend on the collection, in the order the component declares
     * them: routing by the current hash, then the recipe of the day.
     */
    method RecetasChanged(hash: string, hoy: string, random: real)
      requires 0.0 <= random < 1.0
      modifies this`selectedReceta, this`recetaDelDia, this`recetaGuardada
      ensures selectedReceta == HandleHashChange(recetas, hash, old(selectedReceta))
      ensures DailyState(recetaDelDia, recetaGuardada) ==
        PickRecetaDelDia(recetas, DailyState(old(recetaDelDia), old(recetaGuardada)), hoy, random)
    {
      HashChanged(hash);
      ShowRecetaDelDia(hoy, random);
    }
  }
}
