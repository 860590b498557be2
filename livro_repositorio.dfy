/**
 * The book table, keyed by the catalogue's external book id, with its
 * read-only queries (filters, counts, orderings, DISTINCT, top-N) and the
 * save that inserts a new id or replaces the row with the same id.
 */
module LivroRepositorio {
  import opened Comum
  import opened Texto
  import opened Colecoes

  /** A stored book: the external id, title, language code, downloads and its author's key. */
  datatype LivroRegistro = LivroRegistro(
    id: int,
    titulo: string,
    idioma: Option<string>,
    numeroDownloads: Option<int>,
    autorId: nat)

  /** No two stored books share an id. */
  ghost predicate IdsUnicos(t: seq<LivroRegistro>) {
    forall i, j :: 0 <= i < j < |t| ==> t[i].id != t[j].id
  }

  // ---------------------------------------------------------------------
  // Lookups by language
  // ---------------------------------------------------------------------

  /** The WHERE idioma = c condition. */
  function NoIdioma(c: string): LivroRegistro -> bool {
    (l: LivroRegistro) => l.idioma == Some(c)
  }

  /** findByIdioma: the books whose language code is exactly c. */
  function FindByIdioma(t: seq<LivroRegistro>, c: string): (r: seq<LivroRegistro>)
    ensures forall i :: 0 <= i < |r| ==> r[i] in t && r[i].idioma == Some(c)
    ensures forall i :: 0 <= i < |t| && t[i].idioma == Some(c) ==> t[i] in r
  {
    Filtrar(t, NoIdioma(c))
  }

  /** findByIdiomaIgnoreCase: the books whose language code equals c ignoring case. */
  function FindByIdiomaIgnoreCase(t: seq<LivroRegistro>, c: string): (r: seq<LivroRegistro>)
    ensures forall i :: 0 <= i < |r| ==>
              r[i] in t && r[i].idioma.Some? && IgualIgnorandoCaixa(r[i].idioma.value, c)
    ensures forall i :: 0 <= i < |t| && t[i].idioma.Some? && IgualIgnorandoCaixa(t[i].idioma.value, c) ==>
              t[i] in r
  {
    Filtrar(t, (l: LivroRegistro) => l.idioma.Some? && IgualIgnorandoCaixa(l.idioma.value, c))
  }

  /** The case-insensitive lookup finds every book the exact lookup finds. */
  lemma IdiomaExatoContidoNoIgnorandoCaixa(t: seq<LivroRegistro>, c: string)
    ensures forall i :: 0 <= i < |FindByIdioma(t, c)| ==> FindByIdioma(t, c)[i] in FindByIdiomaIgnoreCase(t, c)
  {
    IgualIgnorandoCaixaReflexiva(c);
    var r := FindByIdioma(t, c);
    forall i | 0 <= i < |r|
      ensures r[i] in FindByIdiomaIgnoreCase(t, c)
    {
      var k :| 0 <= k < |t| && t[k] == r[i];
    }
  }

  /** countByIdioma: as many as findByIdioma returns. */
  function CountByIdioma(t: seq<LivroRegistro>, c: string): (n: nat)
    ensures n == |FindByIdioma(t, c)|
    ensures n <= |t|
  {
    Contar(t, NoIdioma(c))
  }

  // ---------------------------------------------------------------------
  // Orderings
  // ---------------------------------------------------------------------

  /** The ORDER BY titulo ASC relation on rows. */
  predicate TituloAntes(a: LivroRegistro, b: LivroRegistro) {
    MenorOuIgual(a.titulo, b.titulo)
  }

  lemma TituloAntesOrdemTotal()
    ensures Total(TituloAntes) && Transitiva(TituloAntes)
  {
    forall a: LivroRegistro, b: LivroRegistro
      ensures TituloAntes(a, b) || TituloAntes(b, a)
    {
      MenorOuIgualTotal(a.titulo, b.titulo);
    }
    forall a: LivroRegistro, b: LivroRegistro, c: LivroRegistro | TituloAntes(a, b) && TituloAntes(b, c)
      ensures TituloAntes(a, c)
    {
      MenorOuIgualTransitiva(a.titulo, b.titulo, c.titulo);
    }
  }

  /** findAllByOrderByTituloAsc: a permutation of the stored books, ascending by title. */
  function FindAllByOrderByTituloAsc(t: seq<LivroRegistro>): (r: seq<LivroRegistro>)
    ensures multiset(r) == multiset(t)
    ensures forall i, j :: 0 <= i < j < |r| ==> MenorOuIgual(r[i].titulo, r[j].titulo)
  {
    TituloAntesOrdemTotal();
    Ordenar(t, TituloAntes)
  }

  /**
   * The ORDER BY numeroDownloads DESC relation: a ranks no lower than b.
   * Books without a count rank last.
   */
  predicate MaisBaixado(a: LivroRegistro, b: LivroRegistro) {
    b.numeroDownloads.None? || (a.numeroDownloads.Some? && a.numeroDownloads.value >= b.numeroDownloads.value)
  }

  lemma MaisBaixadoOrdemTotal()
    ensures Total(MaisBaixado) && Transitiva(MaisBaixado)
  {
  }

  /**
   * findTopLivrosMaisBaixados: at most limite stored books, in
   * non-increasing download order, and every book left out ranks no higher
   * than each one taken.
   */
  function FindTopLivrosMaisBaixados(t: seq<LivroRegistro>, limite: nat): (r: seq<LivroRegistro>)
    ensures |r| == if limite < |t| then limite else |t|
    ensures multiset(r) <= multiset(t)
    ensures forall i, j :: 0 <= i < j < |r| ==> MaisBaixado(r[i], r[j])
    ensures forall x :: x in multiset(t) - multiset(r) ==> forall i :: 0 <= i < |r| ==> MaisBaixado(r[i], x)
  {
    MaisBaixadoOrdemTotal();
    var s := Ordenar(t, MaisBaixado);
    var r := Tomar(s, limite);
    TopoOrdenado(s, |r|);
    r
  }

  /** In a sorted sequence, every element after position n ranks below each one before it. */
  lemma TopoOrdenado(s: seq<LivroRegistro>, n: nat)
    requires n <= |s| && Ordenada(s, MaisBaixado)
    ensures multiset(s) - multiset(s[..n]) == multiset(s[n..])
    ensures forall x :: x in multiset(s[n..]) ==> forall i :: 0 <= i < n ==> MaisBaixado(s[i], x)
  {
    assert s == s[..n] + s[n..];
    forall x | x in multiset(s[n..])
      ensures forall i :: 0 <= i < n ==> MaisBaixado(s[i], x)
    {
      var j :| 0 <= j < |s[n..]| && s[n..][j] == x;
      assert s[n + j] == x;
    }
  }

  // ---------------------------------------------------------------------
  // DISTINCT language codes
  // ---------------------------------------------------------------------

  /** SELECT l.idioma ... WHERE l.idioma IS NOT NULL: the non-null codes in table order. */
  function Idiomas(t: seq<LivroRegistro>): (r: seq<string>)
    ensures forall i :: 0 <= i < |r| ==> exists k :: 0 <= k < |t| && t[k].idioma == Some(r[i])
    ensures forall k :: 0 <= k < |t| && t[k].idioma.Some? ==> t[k].idioma.value in r
  {
    if t == [] then []
    else
      var resto := Idiomas(t[1..]);
      assert forall k :: 1 <= k < |t| ==> t[k] == t[1..][k - 1];
      if t[0].idioma.Some? then [t[0].idioma.value] + resto else resto
  }

  lemma MenorOuIgualOrdem()
    ensures Total(MenorOuIgual) && Transitiva(MenorOuIgual) && Antissimetrica(MenorOuIgual)
  {
    forall a: string, b: string
      ensures MenorOuIgual(a, b) || MenorOuIgual(b, a)
    {
      MenorOuIgualTotal(a, b);
    }
    forall a: string, b: string, c: string | MenorOuIgual(a, b) && MenorOuIgual(b, c)
      ensures MenorOuIgual(a, c)
    {
      MenorOuIgualTransitiva(a, b, c);
    }
    forall a: string, b: string | MenorOuIgual(a, b) && MenorOuIgual(b, a)
      ensures a == b
    {
      MenorOuIgualAntissimetrica(a, b);
    }
  }

  /**
   * findIdiomasDistintos: strictly ascending codes, each stored on some
   * book, and every stored code among them.
   */
  function FindIdiomasDistintos(t: seq<LivroRegistro>): (r: seq<string>)
    ensures forall i, j :: 0 <= i < j < |r| ==> MenorOuIgual(r[i], r[j]) && r[i] != r[j]
    ensures forall i :: 0 <= i < |r| ==> exists k :: 0 <= k < |t| && t[k].idioma == Some(r[i])
    ensures forall k :: 0 <= k < |t| && t[k].idioma.Some? ==> t[k].idioma.value in r
  {
    MenorOuIgualOrdem();
    var codigos := Idiomas(t);
    var ordenados := Ordenar(codigos, MenorOuIgual);
    RemoverRepetidosOrdenada(ordenados, MenorOuIgual);
    var r := RemoverRepetidos(ordenados);
    forall i | 0 <= i < |r|
      ensures r[i] in codigos
    {
      assert r[i] in multiset(ordenados);
    }
    forall k | 0 <= k < |t| && t[k].idioma.Some?
      ensures t[k].idioma.value in r
    {
      assert t[k].idioma.value in multiset(codigos);
      assert t[k].idioma.value in ordenados;
    }
    r
  }

  // ---------------------------------------------------------------------
  // Existence, download filter and save
  // ---------------------------------------------------------------------

  /** existsById */
  predicate ExistsById(t: seq<LivroRegistro>, id: int)
    ensures ExistsById(t, id) <==> id in (set k | 0 <= k < |t| :: t[k].id)
  {
    exists k :: 0 <= k < |t| && t[k].id == id
  }

  /** findByNumeroDownloadsGreaterThan: a known count strictly above minimo. */
  function FindByNumeroDownloadsGreaterThan(t: seq<LivroRegistro>, minimo: int): (r: seq<LivroRegistro>)
    ensures forall i :: 0 <= i < |r| ==>
              r[i] in t && r[i].numeroDownloads.Some? && r[i].numeroDownloads.value > minimo
    ensures forall i :: 0 <= i < |t| && t[i].numeroDownloads.Some? && t[i].numeroDownloads.value > minimo ==>
              t[i] in r
  {
    Filtrar(t, (l: LivroRegistro) => l.numeroDownloads.Some? && l.numeroDownloads.value > minimo)
  }

  /** Position of the row with the given id, or -1. */
  function PosicaoDoId(t: seq<LivroRegistro>, id: int): (k: int)
    ensures -1 <= k < |t|
    ensures k >= 0 ==> t[k].id == id
    ensures k < 0 <==> !ExistsById(t, id)
  {
    if t == [] then -1
    else if t[0].id == id then 0
    else
      var k := PosicaoDoId(t[1..], id);
      assert forall j :: 1 <= j < |t| ==> t[j] == t[1..][j - 1];
      if k < 0 then -1 else k + 1
  }

  /**
   * save: a book whose id is stored replaces that row in place; any other
   * book is appended. Either way the id is then stored with this row, and
   * ids stay unique.
   */
  function Salvar(t: seq<LivroRegistro>, l: LivroRegistro): (r: seq<LivroRegistro>)
    ensures ExistsById(r, l.id) && l in r
    ensures ExistsById(t, l.id) ==> |r| == |t|
    ensures !ExistsById(t, l.id) ==> r == t + [l]
    ensures forall k :: 0 <= k < |t| && t[k].id != l.id ==> t[k] in r
    ensures forall k :: 0 <= k < |r| ==> r[k] in t || r[k] == l
    ensures forall id :: ExistsById(r, id) <==> ExistsById(t, id) || id == l.id
    ensures IdsUnicos(t) ==> IdsUnicos(r)
  {
    var k := PosicaoDoId(t, l.id);
    if k < 0 then
      var r := t + [l];
      assert r[|t|] == l;
      r
    else
      var r := t[k := l];
      assert r[k] == l;
      assert forall j :: 0 <= j < |t| && j != k ==> r[j] == t[j];
      r
  }
}
