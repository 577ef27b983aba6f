/**
 * The visible list of the catalog: the recipes filtered by category (or by the
 * favourites list), by difficulty and by a case-insensitive search over title,
 * description and ingredients, then optionally sorted by title.
 */
module View {
  import opened Sequences
  import opened Text
  import opened Recipes

  /** The filter value that lets every category or difficulty through. */
  const TODAS: string := "Todas"
  /** The category filter value that selects the favourites instead of a category. */
  const FAVORITAS: string := "Favoritas"

  /** The title sort state: not sorted (`null`), `'asc'` or `'desc'`. */
  datatype Orden = SinOrden | Asc | Desc

  /**
   * The locale-dependent string operations, left abstract: `toLowerCase` and
   * `localeCompare`. The laws are the ones the properties need: lower-casing the
   * empty string gives the empty string, and the comparison is a total preorder.
   */
  datatype Locale = Locale(toLowerCase: string -> string, localeCompare: (string, string) -> int) {
    ghost predicate Valid() {
      toLowerCase("") == "" && TotalPreorder(localeCompare)
    }
  }

  /** The filter state cells of the component. */
  datatype Filtros = Filtros(categoria: string, dificultad: string, busqueda: string, orden: Orden)

  /** First stage: membership of the favourites, or the category (any under `'Todas'`). */
  predicate PasaCategoria(r: Recipe, categoria: string, favoritas: seq<int>) {
    if categoria == FAVORITAS then r.id in favoritas
    else categoria == TODAS || r.categoria == categoria
  }

  /** Second stage: the difficulty (any under `'Todas'`). */
  predicate PasaDificultad(r: Recipe, dificultad: string) {
    dificultad == TODAS || r.dificultad == dificultad
  }

  /** Third stage: the lower-cased term occurs in the lower-cased title, description or ingredients. */
  predicate PasaBusqueda(loc: Locale, r: Recipe, termino: string) {
    var t := loc.toLowerCase(termino);
    || Includes(loc.toLowerCase(r.titulo), t)
    || Includes(loc.toLowerCase(r.descripcion), t)
    || Includes(loc.toLowerCase(r.ingredientes), t)
  }

  /** All three stages at once. */
  predicate Visible(loc: Locale, favoritas: seq<int>, f: Filtros, r: Recipe) {
    PasaCategoria(r, f.categoria, favoritas) && PasaDificultad(r, f.dificultad) && PasaBusqueda(loc, r, f.busqueda)
  }

  /** The comparator handed to `sort`: ties everywhere when unsorted, title order or its reverse otherwise. */
  function Comparador(loc: Locale, orden: Orden): (Recipe, Recipe) -> int {
    match orden
    case SinOrden => (a: Recipe, b: Recipe) => 0
    case Asc => (a: Recipe, b: Recipe) => loc.localeCompare(a.titulo, b.titulo)
    case Desc => (a: Recipe, b: Recipe) => loc.localeCompare(b.titulo, a.titulo)
  }

  /** The recipes that pass the three filter stages, before sorting. */
  function Filtradas(loc: Locale, recetas: seq<Recipe>, favoritas: seq<int>, f: Filtros): (v: seq<Recipe>)
    ensures |v| <= |recetas|
    ensures forall r | r in v :: r in recetas && Visible(loc, favoritas, f, r)
    ensures forall r | r in recetas && Visible(loc, favoritas, f, r) :: r in v
  {
    var porCategoria := Filter(recetas, (r: Recipe) => PasaCategoria(r, f.categoria, favoritas));
    var porDificultad := Filter(porCategoria, (r: Recipe) => PasaDificultad(r, f.dificultad));
    Filter(porDificultad, (r: Recipe) => PasaBusqueda(loc, r, f.busqueda))
  }

  /** `recetasFiltradas`: the filtered recipes, sorted with the comparator of the current order. */
  function RecetasFiltradas(loc: Locale, recetas: seq<Recipe>, favoritas: seq<int>, f: Filtros): (v: seq<Recipe>)
    ensures |v| <= |recetas|
    ensures forall r | r in v :: r in recetas && Visible(loc, favoritas, f, r)
    ensures forall r | r in recetas && Visible(loc, favoritas, f, r) :: r in v
  {
    var pasan := Filtradas(loc, recetas, favoritas, f);
    var v := Sort(pasan, Comparador(loc, f.orden));
    assert forall r :: r in v <==> r in pasan by {
      forall r ensures r in v <==> r in pasan {
        assert r in v <==> r in multiset(v);
        assert r in pasan <==> r in multiset(pasan);
      }
    }
    v
  }

  /** The three stages in a row select the same recipes, in the same order, as one filter by all three. */
  lemma FiltradasIsOneFilter(loc: Locale, recetas: seq<Recipe>, favoritas: seq<int>, f: Filtros)
    ensures Filtradas(loc, recetas, favoritas, f) == Filter(recetas, (r: Recipe) => Visible(loc, favoritas, f, r))
  {
    var p1 := (r: Recipe) => PasaCategoria(r, f.categoria, favoritas);
    var p2 := (r: Recipe) => PasaDificultad(r, f.dificultad);
    var p3 := (r: Recipe) => PasaBusqueda(loc, r, f.busqueda);
    var p12 := (r: Recipe) => p1(r) && p2(r);
    FilterFilter(recetas, p1, p2, p12);
    FilterFilter(recetas, p12, p3, (r: Recipe) => Visible(loc, favoritas, f, r));
  }

  /**
   * Soundness and completeness of the visible list: it holds exactly the recipes
   * of the collection that pass all three stages, each as often as in the
   * collection; before sorting they form a subsequence of the collection, and
   * without a sort order the visible list is that subsequence.
   */
  lemma RecetasFiltradasSpec(loc: Locale, recetas: seq<Recipe>, favoritas: seq<int>, f: Filtros)
    ensures var pasan := Filter(recetas, (r: Recipe) => Visible(loc, favoritas, f, r));
      && IsSubsequence(pasan, recetas)
      && multiset(RecetasFiltradas(loc, recetas, favoritas, f)) == multiset(pasan)
      && (f.orden == SinOrden ==> RecetasFiltradas(loc, recetas, favoritas, f) == pasan)
    ensures forall r :: r in RecetasFiltradas(loc, recetas, favoritas, f) <==> r in recetas && Visible(loc, favoritas, f, r)
  {
    var pasan := Filter(recetas, (r: Recipe) => Visible(loc, favoritas, f, r));
    FiltradasIsOneFilter(loc, recetas, favoritas, f);
    FilterIsSubsequence(recetas, (r: Recipe) => Visible(loc, favoritas, f, r));
    if f.orden == SinOrden {
      SortTiesKeepOrder(pasan, Comparador(loc, f.orden));
    }
    var v := RecetasFiltradas(loc, recetas, favoritas, f);
    forall r ensures r in v <==> r in recetas && Visible(loc, favoritas, f, r) {
      assert r in v <==> r in multiset(v);
      assert r in pasan <==> r in multiset(pasan);
    }
  }

  /**
   * Under `'Favoritas'` the first stage looks only at the favourites list: a recipe
   * is visible exactly when it is in the collection, its id is a favourite and it
   * passes the difficulty and search stages, whatever its category.
   */
  lemma FavoritasFilter(loc: Locale, recetas: seq<Recipe>, favoritas: seq<int>, f: Filtros, r: Recipe)
    requires f.categoria == FAVORITAS
    ensures r in RecetasFiltradas(loc, recetas, favoritas, f) <==>
      r in recetas && r.id in favoritas && PasaDificultad(r, f.dificultad) && PasaBusqueda(loc, r, f.busqueda)
  {
    RecetasFiltradasSpec(loc, recetas, favoritas, f);
  }

  /** With every filter at its neutral value and no sort order, the whole collection is visible, in order. */
  lemma TodoVisible(loc: Locale, recetas: seq<Recipe>, favoritas: seq<int>)
    requires loc.Valid()
    ensures RecetasFiltradas(loc, recetas, favoritas, Filtros(TODAS, TODAS, "", SinOrden)) == recetas
  {
    var f := Filtros(TODAS, TODAS, "", SinOrden);
    forall i | 0 <= i < |recetas| ensures Visible(loc, favoritas, f, recetas[i]) {
      IncludesEmpty(loc.toLowerCase(recetas[i].titulo));
    }
    FilterAll(recetas, (r: Recipe) => Visible(loc, favoritas, f, r));
    RecetasFiltradasSpec(loc, recetas, favoritas, f);
  }

  /** Both title comparators are total preorders when `localeCompare` is one. */
  lemma ComparadorTotalPreorder(loc: Locale, orden: Orden)
    requires loc.Valid()
    ensures TotalPreorder(Comparador(loc, orden))
  {
    var cmp := Comparador(loc, orden);
    var lc := loc.localeCompare;
    forall a, b ensures cmp(a, b) <= 0 || cmp(b, a) <= 0 {
      assert lc(a.titulo, b.titulo) <= 0 || lc(b.titulo, a.titulo) <= 0;
    }
    forall a, b, c | cmp(a, b) <= 0 && cmp(b, c) <= 0 ensures cmp(a, c) <= 0 {
      if orden == Asc {
        assert lc(a.titulo, b.titulo) <= 0 && lc(b.titulo, c.titulo) <= 0;
      } else if orden == Desc {
        assert lc(c.titulo, b.titulo) <= 0 && lc(b.titulo, a.titulo) <= 0;
      }
    }
  }

  /**
   * Order of the visible list: under `'asc'` neighbouring titles do not decrease by
   * `localeCompare`, under `'desc'` they do not increase; the same holds between any
   * two positions, not only neighbours.
   */
  lemma RecetasFiltradasOrden(loc: Locale, recetas: seq<Recipe>, favoritas: seq<int>, f: Filtros)
    requires loc.Valid()
    ensures var v := RecetasFiltradas(loc, recetas, favoritas, f);
      && (f.orden == Asc ==> forall i, j :: 0 <= i < j < |v| ==> loc.localeCompare(v[i].titulo, v[j].titulo) <= 0)
      && (f.orden == Desc ==> forall i, j :: 0 <= i < j < |v| ==> loc.localeCompare(v[j].titulo, v[i].titulo) <= 0)
  {
    var cmp := Comparador(loc, f.orden);
    var v := RecetasFiltradas(loc, recetas, favoritas, f);
    ComparadorTotalPreorder(loc, f.orden);
    SortSorted(Filtradas(loc, recetas, favoritas, f), cmp);
    SortedIsPairwise(v, cmp);
  }

  /**
   * The title sort is stable: recipes whose titles `localeCompare` ranks equal keep,
   * among themselves, the order they have in the collection.
   */
  lemma RecetasFiltradasStable(loc: Locale, recetas: seq<Recipe>, favoritas: seq<int>, f: Filtros,
                               x: Recipe, mismoTitulo: Recipe -> bool)
    requires loc.Valid()
    requires forall y :: (mismoTitulo(y) ==
      (loc.localeCompare(x.titulo, y.titulo) <= 0 && loc.localeCompare(y.titulo, x.titulo) <= 0))
    ensures Filter(RecetasFiltradas(loc, recetas, favoritas, f), mismoTitulo) ==
      Filter(Filter(recetas, (r: Recipe) => Visible(loc, favoritas, f, r)), mismoTitulo)
  {
    var cmp := Comparador(loc, f.orden);
    FiltradasIsOneFilter(loc, recetas, favoritas, f);
    if f.orden == SinOrden {
      SortTiesKeepOrder(Filtradas(loc, recetas, favoritas, f), cmp);
    } else {
      ComparadorTotalPreorder(loc, f.orden);
      SortStable(Filtradas(loc, recetas, favoritas, f), cmp, x, mismoTitulo);
    }
  }

  // A two-recipe example collection.
  const TORTILLA := Recipe(1, "Tortilla", "", "", "", "Primero", "Baja", "")
  const FLAN := Recipe(2, "Flan", "", "", "", "Postre", "Media", "")

  /** Category `Postre` shows only the flan. */
  lemma ExampleCategoria(loc: Locale)
    requires loc.Valid()
    ensures RecetasFiltradas(loc, [TORTILLA, FLAN], [], Filtros("Postre", TODAS, "", SinOrden)) == [FLAN]
  {
    var f := Filtros("Postre", TODAS, "", SinOrden);
    assert "Primero" != "Postre" by { assert "Primero"[1] != "Postre"[1]; }
    assert Filter([TORTILLA, FLAN], (r: Recipe) => PasaCategoria(r, f.categoria, [])) == [FLAN] by {
      assert [TORTILLA, FLAN][1..] == [FLAN];
    }
    assert PasaBusqueda(loc, FLAN, "") by { IncludesEmpty(loc.toLowerCase(FLAN.titulo)); }
    assert Filtradas(loc, [TORTILLA, FLAN], [], f) == [FLAN];
  }

  /** Searching "tortilla" shows only the tortilla, whatever the case of its title. */
  lemma ExampleBusqueda(loc: Locale)
    requires loc.Valid()
    requires loc.toLowerCase("Tortilla") == "tortilla" && loc.toLowerCase("tortilla") == "tortilla"
    requires loc.toLowerCase("Flan") == "flan"
    ensures RecetasFiltradas(loc, [TORTILLA, FLAN], [], Filtros(TODAS, TODAS, "tortilla", SinOrden)) == [TORTILLA]
  {
    var f := Filtros(TODAS, TODAS, "tortilla", SinOrden);
    assert Includes("tortilla", "tortilla") by { assert StartsWith("tortilla"[0..], "tortilla"); }
    assert PasaBusqueda(loc, TORTILLA, "tortilla");
    assert !Includes("flan", "tortilla") && !Includes("", "tortilla");
    assert !PasaBusqueda(loc, FLAN, "tortilla");
    var all := (r: Recipe) => PasaCategoria(r, f.categoria, []);
    FilterAll([TORTILLA, FLAN], all);
    FilterAll([TORTILLA, FLAN], (r: Recipe) => PasaDificultad(r, f.dificultad));
    assert [TORTILLA, FLAN][1..] == [FLAN];
    assert Filter([TORTILLA, FLAN], (r: Recipe) => PasaBusqueda(loc, r, f.busqueda)) == [TORTILLA];
  }

  /** Sorting ascending puts "Flan" before "Tortilla". */
  lemma ExampleOrden(loc: Locale)
    requires loc.Valid()
    requires loc.localeCompare("Tortilla", "Flan") > 0
    ensures RecetasFiltradas(loc, [TORTILLA, FLAN], [], Filtros(TODAS, TODAS, "", Asc)) == [FLAN, TORTILLA]
  {
    var f := Filtros(TODAS, TODAS, "", Asc);
    var s := [TORTILLA, FLAN];
    var cmp := Comparador(loc, Asc);
    assert Filtradas(loc, s, [], f) == s by {
      forall i | 0 <= i < |s| ensures Visible(loc, [], f, s[i]) {
        IncludesEmpty(loc.toLowerCase(s[i].titulo));
      }
      FilterAll(s, (r: Recipe) => Visible(loc, [], f, r));
      FiltradasIsOneFilter(loc, s, [], f);
    }
    assert Sort([FLAN], cmp) == [FLAN];
    assert cmp(TORTILLA, FLAN) > 0;
    assert Insert(TORTILLA, [FLAN], cmp) == [FLAN, TORTILLA];
    assert s[1..] == [FLAN];
  }

  /** The sort button: `'asc'` becomes `'desc'`, anything else becomes `'asc'`. */
  function NextOrden(o: Orden): (r: Orden)
    ensures r != SinOrden
    ensures r == Desc <==> o == Asc
  {
    if o == Asc then Desc else Asc
  }

  /** The sort state after `n` presses of the sort button. */
  function Presses(o: Orden, n: nat): Orden {
    if n == 0 then o else NextOrden(Presses(o, n - 1))
  }

  /**
   * After the first press the button alternates between `'asc'` and `'desc'`: the
   * state is never unsorted again, and two more presses lead back to it.
   */
  lemma {:induction false} PressesAlternate(o: Orden, n: nat)
    requires n >= 1
    ensures Presses(o, n) != SinOrden
    ensures Presses(o, n + 2) == Presses(o, n)
    ensures Presses(o, n + 1) != Presses(o, n)
  {
    if n > 1 {
      PressesAlternate(o, n - 1);
    }
  }
}
