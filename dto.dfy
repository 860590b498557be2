/**
 * The records that the Gutendex response decodes into. They are immutable
 * values; their helpers are null-safe head-of-list accessors and the
 * defaults that their summaries substitute for missing fields.
 */
module Dto {
  import opened Comum

  /** AutorDTO: a name and the optional years of life. */
  datatype AutorDto = AutorDto(nome: string, anoNascimento: Option<int>, anoFalecimento: Option<int>)

  /** The fields that LivroDTO.toString shows, with its defaults applied. */
  datatype ResumoLivro = ResumoLivro(id: Option<int>, titulo: Option<string>, autor: string, idioma: string, downloads: int)

  /** LivroDTO: every field may be absent (null) in the response. */
  datatype LivroDto = LivroDto(
    id: Option<int>,
    titulo: Option<string>,
    autores: Option<seq<AutorDto>>,
    idiomas: Option<seq<string>>,
    numeroDownloads: Option<int>)
  {
    /** getPrimeiroAutor */
    function PrimeiroAutor(): (r: Option<AutorDto>)
      ensures r.None? <==> autores.None? || autores.value == []
      ensures r.Some? ==> r.value == autores.value[0]
    {
      if autores.Some? && autores.value != [] then Some(autores.value[0]) else None
    }

    /** getPrimeiroIdioma */
    function PrimeiroIdioma(): (r: Option<string>)
      ensures r.None? <==> idiomas.None? || idiomas.value == []
      ensures r.Some? ==> r.value == idiomas.value[0]
    {
      if idiomas.Some? && idiomas.value != [] then Some(idiomas.value[0]) else None
    }

    /** The fields of toString, with the defaults for a missing author, language or count. */
    function Resumo(): (r: ResumoLivro)
      ensures r.id == id && r.titulo == titulo
      ensures PrimeiroAutor().None? ==> r.autor == "Autor desconhecido"
      ensures PrimeiroAutor().Some? ==> r.autor == autores.value[0].nome
      ensures PrimeiroIdioma().None? ==> r.idioma == "Idioma desconhecido"
      ensures PrimeiroIdioma().Some? ==> r.idioma == idiomas.value[0]
      ensures r.downloads == if numeroDownloads.Some? then numeroDownloads.value else 0
    {
      var autor := PrimeiroAutor();
      var idioma := PrimeiroIdioma();
      ResumoLivro(
        id, titulo,
        if autor.Some? then autor.value.nome else "Autor desconhecido",
        if idioma.Some? then idioma.value else "Idioma desconhecido",
        if numeroDownloads.Some? then numeroDownloads.value else 0)
    }
  }

  /** GutendexResponseDTO: one page of results. */
  datatype GutendexResponseDto = GutendexResponseDto(
    total: Option<int>,
    proximaPagina: Option<string>,
    paginaAnterior: Option<string>,
    livros: Option<seq<LivroDto>>)
  {
    /** temResultados */
    predicate TemResultados() {
      livros.Some? && livros.value != []
    }

    /** getPrimeiroLivro: null exactly when there are no results. */
    function PrimeiroLivro(): (r: Option<LivroDto>)
      ensures r.None? <==> !TemResultados()
      ensures r.None? <==> livros.None? || livros.value == []
      ensures r.Some? ==> r.value == livros.value[0]
    {
      if TemResultados() then Some(livros.value[0]) else None
    }

    /** The two counts of toString: the total and this page's size, 0 when null. */
    function Resumo(): (r: (int, nat))
      ensures r.0 == if total.Some? then total.value else 0
      ensures r.1 == if livros.Some? then |livros.value| else 0
      ensures r.1 > 0 <==> TemResultados()
    {
      (if total.Some? then total.value else 0, if livros.Some? then |livros.value| else 0)
    }
  }

  /** The one-result response of the unit tests: Dom Casmurro by Machado de Assis. */
  function RespostaDomCasmurro(): (r: GutendexResponseDto)
    ensures r.total == Some(1) && r.TemResultados()
    ensures r.PrimeiroLivro().Some?
    ensures r.PrimeiroLivro().value.id == Some(55752)
    ensures r.PrimeiroLivro().value.titulo == Some("Dom Casmurro")
    ensures r.PrimeiroLivro().value.PrimeiroIdioma() == Some("pt")
    ensures r.PrimeiroLivro().value.numeroDownloads == Some(1234)
    ensures r.PrimeiroLivro().value.PrimeiroAutor().Some?
    ensures r.PrimeiroLivro().value.PrimeiroAutor().value.nome == "Machado de Assis"
  {
    GutendexResponseDto(
      Some(1), None, None,
      Some([LivroDto(
        Some(55752), Some("Dom Casmurro"),
        Some([AutorDto("Machado de Assis", Some(1839), Some(1908))]),
        Some(["pt"]),
        Some(1234))]))
  }
}
