/**
 * The catalogue's two entities as objects: an author (Autor), which keeps
 * the list of its books and validates its years of life, and a book
 * (Livro), which refers back to its author. Their value rules (the
 * open-world "alive in year" test, the language-name table, the display
 * truncation) are stated once here as functions and reused by the store.
 */
module Modelo {
  import opened Comum
  import opened Texto

  const MSG_ANOS_VIDA := "Ano de nascimento não pode ser posterior ao ano de falecimento"
  const MSG_LIVRO_NULO := "Livro não pode ser nulo"
  const MSG_ANO_FORA := "Ano deve estar entre 1 e 3000"
  const ANO_MINIMO := 1
  const ANO_MAXIMO := 3000

  // ---------------------------------------------------------------------
  // Value rules of an author
  // ---------------------------------------------------------------------

  /** The test of validateAnosVida: refused only when both years are known and birth comes after death. */
  predicate AnosVidaValidos(nascimento: Option<int>, falecimento: Option<int>) {
    !(nascimento.Some? && falecimento.Some? && nascimento.value > falecimento.value)
  }

  /**
   * Open-world "alive in year": an unknown birth year counts as already
   * born, an unknown death year as still alive.
   */
  predicate VivoEm(nascimento: Option<int>, falecimento: Option<int>, ano: int) {
    (nascimento.None? || nascimento.value <= ano) && (falecimento.None? || falecimento.value >= ano)
  }

  /** The years in which an author is alive form an interval. */
  lemma VivoEmIntervalo(nascimento: Option<int>, falecimento: Option<int>, a: int, b: int, ano: int)
    requires VivoEm(nascimento, falecimento, a) && VivoEm(nascimento, falecimento, b)
    requires a <= ano <= b
    ensures VivoEm(nascimento, falecimento, ano)
  {
  }

  // ---------------------------------------------------------------------
  // Value rules of a book
  // ---------------------------------------------------------------------

  /** The display names of the known language codes. */
  const NOMES_IDIOMAS: map<string, string> := map[
    "pt" := "Português", "en" := "Inglês", "es" := "Espanhol", "fr" := "Francês",
    "de" := "Alemão", "it" := "Italiano", "la" := "Latim", "fi" := "Finlandês",
    "nl" := "Holandês", "ru" := "Russo"]

  /** getNomeIdioma: the switch on the lower-cased code. */
  function NomeDoIdioma(idioma: Option<string>): (r: string)
    ensures idioma.None? ==> r == "Desconhecido"
    ensures idioma.Some? && ParaMinusculas(idioma.value) in NOMES_IDIOMAS ==>
              r == NOMES_IDIOMAS[ParaMinusculas(idioma.value)]
    ensures idioma.Some? && ParaMinusculas(idioma.value) !in NOMES_IDIOMAS ==>
              r == ParaMaiusculas(idioma.value)
  {
    var codigo := if idioma.Some? then ParaMinusculas(idioma.value) else "";
    if codigo == "pt" then "Português"
    else if codigo == "en" then "Inglês"
    else if codigo == "es" then "Espanhol"
    else if codigo == "fr" then "Francês"
    else if codigo == "de" then "Alemão"
    else if codigo == "it" then "Italiano"
    else if codigo == "la" then "Latim"
    else if codigo == "fi" then "Finlandês"
    else if codigo == "nl" then "Holandês"
    else if codigo == "ru" then "Russo"
    else if idioma.Some? then ParaMaiusculas(idioma.value)
    else "Desconhecido"
  }

  /** The language name does not depend on the case of the code ("PT" and "pt" agree). */
  lemma NomeDoIdiomaIgnoraCaixa(a: string, b: string)
    requires IgualIgnorandoCaixa(a, b)
    ensures NomeDoIdioma(Some(a)) == NomeDoIdioma(Some(b))
  {
    IgualIgnorandoCaixaSse(a, b);
    MaiusculasIguaisSeIgualIgnorandoCaixa(a, b);
  }

  /** Cuts a text longer than the column to its first largura - 3 characters plus "...". */
  function Truncar(s: string, largura: nat): (r: string)
    requires largura >= 3
    ensures |r| <= largura
    ensures |s| <= largura ==> r == s
    ensures |s| > largura ==> |r| == largura && r[..largura - 3] == s[..largura - 3]
    ensures |s| > largura ==> r[largura - 3..] == "..."
  {
    if |s| > largura then s[..largura - 3] + "..." else s
  }

  /** The four columns that Livro.toString prints. */
  datatype LinhaLivro = LinhaLivro(titulo: string, autor: string, idioma: string, downloads: int)

  /** Long.hashCode: the two 32-bit halves of the 64-bit value xor-ed together. */
  function HashLong(v: int): (h: int)
    ensures MIN_INT <= h <= MAX_INT
  {
    var b := (v % 0x1_0000_0000_0000_0000) as bv64;
    ComSinal32(((b ^ (b >> 32)) as int) % DOIS_32)
  }

  // ---------------------------------------------------------------------
  // The book list of an author, searched as ArrayList.indexOf does
  // ---------------------------------------------------------------------

  /** Index of the first book whose id equals id (Livro.equals), or -1. */
  function IndiceIgual(s: seq<Livro>, id: Option<int>): (k: int)
    reads s
    ensures -1 <= k < |s|
    ensures k >= 0 ==> s[k].id == id
    ensures k < 0 ==> forall j :: 0 <= j < |s| ==> s[j].id != id
    ensures k >= 0 ==> forall j :: 0 <= j < k ==> s[j].id != id
  {
    if s == [] then -1
    else if s[0].id == id then 0
    else
      var k := IndiceIgual(s[1..], id);
      if k < 0 then -1 else k + 1
  }

  /** No two books of the list are equal (same id). */
  ghost predicate IdsDistintos(s: seq<Livro>)
    reads s
  {
    forall i, j :: 0 <= i < j < |s| ==> s[i].id != s[j].id
  }

  /**
   * What removerLivro leaves: when the ids were distinct, removing the book
   * found by its id leaves no book with that id, and the others keep their order.
   */
  lemma RemocaoEliminaIgual(s: seq<Livro>, id: Option<int>, r: seq<Livro>)
    requires IdsDistintos(s) && IndiceIgual(s, id) >= 0
    requires r == s[..IndiceIgual(s, id)] + s[IndiceIgual(s, id) + 1..]
    ensures IndiceIgual(r, id) < 0 && IdsDistintos(r)
  {
    var k := IndiceIgual(s, id);
    forall j | 0 <= j < |r|
      ensures r[j].id != s[k].id
    {
      if j < k {
        assert r[j] == s[j];
      } else {
        assert r[j] == s[j + 1];
      }
    }
    forall i, j | 0 <= i < j < |r|
      ensures r[i].id != r[j].id
    {
      var i' := if i < k then i else i + 1;
      var j' := if j < k then j else j + 1;
      assert r[i] == s[i'] && r[j] == s[j'];
    }
  }

  // ---------------------------------------------------------------------
  // Autor
  // ---------------------------------------------------------------------

  class Autor {
    var nome: Option<string>
    var anoNascimento: Option<int>
    var anoFalecimento: Option<int>
    var livros: seq<Livro>

    /** new Autor() */
    constructor ()
      ensures nome.None? && anoNascimento.None? && anoFalecimento.None? && livros == []
    {
      nome := None;
      anoNascimento := None;
      anoFalecimento := None;
      livros := [];
    }

    /**
     * new Autor(nome, nascimento, falecimento): the fields are stored
     * verbatim and then validated; birth after death throws.
     */
    static method Criar(nome: Option<string>, nascimento: Option<int>, falecimento: Option<int>)
      returns (r: Result<Autor>)
      ensures r.Failure? <==> !AnosVidaValidos(nascimento, falecimento)
      ensures r.Failure? ==> r.error == ArgumentoInvalido(MSG_ANOS_VIDA)
      ensures r.Success? ==> fresh(r.value) && r.value.livros == []
      ensures r.Success? ==> r.value.nome == nome && r.value.anoNascimento == nascimento
                             && r.value.anoFalecimento == falecimento
    {
      var autor := new Autor();
      autor.nome := nome;
      autor.anoNascimento := nascimento;
      autor.anoFalecimento := falecimento;
      var v := autor.ValidacaoAnosVida();
      if v.Fail? {
        return Failure(v.error);
      }
      return Success(autor);
    }

    /** validateAnosVida */
    function ValidacaoAnosVida(): (r: Outcome)
      reads this
      ensures r.Fail? <==> anoNascimento.Some? && anoFalecimento.Some?
                           && anoNascimento.value > anoFalecimento.value
      ensures r.Fail? ==> r.error == ArgumentoInvalido(MSG_ANOS_VIDA)
    {
      if AnosVidaValidos(anoNascimento, anoFalecimento) then Pass
      else Fail(ArgumentoInvalido(MSG_ANOS_VIDA))
    }

    /** setNome: stores the trimmed name, or null. */
    method SetNome(n: Option<string>)
      modifies this`nome
      ensures n.None? ==> nome.None?
      ensures n.Some? ==> nome == Some(Trim(n.value))
    {
      nome := if n.Some? then Some(Trim(n.value)) else None;
    }

    /**
     * setAnoNascimento: the field is assigned before the check, so the new
     * value stays even when the check throws.
     */
    method SetAnoNascimento(ano: Option<int>) returns (v: Outcome)
      modifies this`anoNascimento
      ensures anoNascimento == ano
      ensures v.Fail? <==> !AnosVidaValidos(ano, anoFalecimento)
      ensures v.Fail? ==> v.error == ArgumentoInvalido(MSG_ANOS_VIDA)
    {
      anoNascimento := ano;
      v := ValidacaoAnosVida();
    }

    /** setAnoFalecimento: assigns, then validates, like setAnoNascimento. */
    method SetAnoFalecimento(ano: Option<int>) returns (v: Outcome)
      modifies this`anoFalecimento
      ensures anoFalecimento == ano
      ensures v.Fail? <==> !AnosVidaValidos(anoNascimento, ano)
      ensures v.Fail? ==> v.error == ArgumentoInvalido(MSG_ANOS_VIDA)
    {
      anoFalecimento := ano;
      v := ValidacaoAnosVida();
    }

    /** getLivros: a copy of the list; a sequence is a value, so the copy cannot alias it. */
    method GetLivros() returns (copia: seq<Livro>)
      ensures copia == livros
    {
      copia := livros;
    }

    /** setLivros: clears the list, then adds every given book (none for null). */
    method SetLivros(novos: Option<seq<Livro>>)
      modifies this`livros
      ensures novos.None? ==> livros == []
      ensures novos.Some? ==> livros == novos.value
    {
      livros := [];
      if novos.Some? {
        livros := livros + novos.value;
      }
    }

    /**
     * adicionarLivro: null is refused; a book equal to one already listed
     * (same id) is ignored; otherwise it is appended and linked back.
     */
    method AdicionarLivro(livro: Livro?) returns (v: Outcome)
      modifies this`livros, livro
      ensures livro != null ==> livro.id == old(livro.id) && livro.titulo == old(livro.titulo)
      ensures livro != null ==> livro.idioma == old(livro.idioma)
                                && livro.numeroDownloads == old(livro.numeroDownloads)
      ensures livro == null ==> v == Fail(ArgumentoInvalido(MSG_LIVRO_NULO)) && livros == old(livros)
      ensures livro != null ==> v == Pass && IndiceIgual(livros, livro.id) >= 0
      ensures livro != null && old(IndiceIgual(livros, livro.id)) >= 0 ==>
                livros == old(livros) && livro.autor == old(livro.autor)
      ensures livro != null && old(IndiceIgual(livros, livro.id)) < 0 ==>
                livros == old(livros) + [livro] && livro.autor == this
      ensures old(IdsDistintos(livros)) ==> IdsDistintos(livros)
    {
      if livro == null {
        return Fail(ArgumentoInvalido(MSG_LIVRO_NULO));
      }
      if IndiceIgual(livros, livro.id) < 0 {
        livros := livros + [livro];
        livro.SetAutor(this);
        assert livros[|livros| - 1] == livro;
      }
      v := Pass;
    }

    /**
     * removerLivro: removes the first listed book equal to livro (same id)
     * and, only if one was removed, clears livro's author.
     */
    method RemoverLivro(livro: Livro?)
      modifies this`livros, livro
      ensures livro != null ==> livro.id == old(livro.id) && livro.titulo == old(livro.titulo)
      ensures livro != null ==> livro.idioma == old(livro.idioma)
                                && livro.numeroDownloads == old(livro.numeroDownloads)
      ensures livro == null ==> livros == old(livros)
      ensures livro != null && old(IndiceIgual(livros, livro.id)) < 0 ==>
                livros == old(livros) && livro.autor == old(livro.autor)
      ensures livro != null && old(IndiceIgual(livros, livro.id)) >= 0 ==>
                var k := old(IndiceIgual(livros, livro.id));
                livros == old(livros[..k] + livros[k + 1..]) && livro.autor == null
    {
      if livro != null {
        var k := IndiceIgual(livros, livro.id);
        if k >= 0 {
          livros := livros[..k] + livros[k + 1..];
          livro.SetAutor(null);
        }
      }
    }

    /** estaVivo: years outside 1..3000 throw; otherwise the open-world test. */
    function EstaVivo(ano: int): (r: Result<bool>)
      reads this
      ensures r.Failure? <==> ano < ANO_MINIMO || ano > ANO_MAXIMO
      ensures r.Failure? ==> r.error == ArgumentoInvalido(MSG_ANO_FORA)
      ensures r.Success? ==> (r.value <==> VivoEm(anoNascimento, anoFalecimento, ano))
      ensures r.Success? && anoNascimento.Some? && anoFalecimento.Some? ==>
                (r.value <==> anoNascimento.value <= ano <= anoFalecimento.value)
    {
      if ano < ANO_MINIMO || ano > ANO_MAXIMO then Failure(ArgumentoInvalido(MSG_ANO_FORA))
      else Success(VivoEm(anoNascimento, anoFalecimento, ano))
    }

    /**
     * getIdadeEm as written: null without a birth year or after the death
     * year, otherwise max(0, ano - birth) with the subtraction in Java's
     * 32-bit int. So 0 for a year before birth while the difference fits in
     * an int; a difference below the int range wraps to a positive age, and
     * one above it wraps to a negative value, answered as 0.
     */
    function IdadeEm(ano: int): (r: Option<int>)
      reads this
      ensures r.None? <==> anoNascimento.None? || (anoFalecimento.Some? && ano > anoFalecimento.value)
      ensures r.Some? ==> 0 <= r.value <= MAX_INT
      ensures r.Some? && ano >= anoNascimento.value && ano - anoNascimento.value <= MAX_INT ==>
                r.value == ano - anoNascimento.value
      ensures r.Some? && ano < anoNascimento.value && ano - anoNascimento.value >= MIN_INT ==> r.value == 0
      ensures r.Some? && r.value != 0 ==> (r.value - (ano - anoNascimento.value)) % DOIS_32 == 0
      ensures r.Some? && -DOIS_32 < ano - anoNascimento.value < MIN_INT ==>
                r.value == ano - anoNascimento.value + DOIS_32
      ensures r.Some? && MAX_INT < ano - anoNascimento.value < DOIS_32 ==> r.value == 0
    {
      if anoNascimento.None? then None
      else if anoFalecimento.Some? && ano > anoFalecimento.value then None
      else
        var diferenca := Int32(ano - anoNascimento.value);
        Some(if diferenca > 0 then diferenca else 0)
    }

    /**
     * getIdadeEm as its documentation and its tests intend: an age exactly
     * in the years the author is known to be alive, null otherwise.
     */
    function IdadeEmCorrigida(ano: int): (r: Option<int>)
      reads this
      ensures r.Some? <==> anoNascimento.Some? && VivoEm(anoNascimento, anoFalecimento, ano)
      ensures r.Some? ==> r.value >= 0 && r.value == ano - anoNascimento.value
    {
      if anoNascimento.None? || ano < anoNascimento.value then None
      else if anoFalecimento.Some? && ano > anoFalecimento.value then None
      else Some(ano - anoNascimento.value)
    }

    /** isVivo: no death year recorded, so alive in every year from birth on. */
    function IsVivo(): (r: bool)
      reads this
      ensures r <==> anoFalecimento.None?
      ensures r ==> forall ano :: anoNascimento.None? || anoNascimento.value <= ano ==>
                      VivoEm(anoNascimento, anoFalecimento, ano)
    {
      anoFalecimento.None?
    }

    /** equals: the same object, or names equal ignoring case, or both names null. */
    predicate Igual(outro: Autor)
      reads this, outro
      ensures Igual(outro) <==>
                this == outro
                || (nome.None? && outro.nome.None?)
                || (nome.Some? && outro.nome.Some? && ParaMinusculas(nome.value) == ParaMinusculas(outro.nome.value))
    {
      IgualIgnorandoCaixaSse(if nome.Some? then nome.value else "", if outro.nome.Some? then outro.nome.value else "");
      this == outro
      || (if nome.Some? then outro.nome.Some? && IgualIgnorandoCaixa(nome.value, outro.nome.value)
          else outro.nome.None?)
    }

    /** hashCode: the hash of the lower-cased name, 0 for a null name. */
    function HashCode(): (h: int)
      reads this
      ensures MIN_INT <= h <= MAX_INT
      ensures nome.None? ==> h == 0
    {
      if nome.Some? then HashString(ParaMinusculas(nome.value)) else 0
    }
  }

  /** Two authors are equal exactly when their names lower-case alike, or both are null. */
  lemma AutorIgualSse(a: Autor, b: Autor)
    ensures a.Igual(b) <==>
            (a.nome.None? && b.nome.None?)
            || (a.nome.Some? && b.nome.Some? && ParaMinusculas(a.nome.value) == ParaMinusculas(b.nome.value))
  {
    if a.nome.Some? && b.nome.Some? {
      IgualIgnorandoCaixaSse(a.nome.value, b.nome.value);
    }
  }

  /** Equal authors have equal hash codes. */
  lemma AutorIgualMesmoHash(a: Autor, b: Autor)
    requires a.Igual(b)
    ensures a.HashCode() == b.HashCode()
  {
    AutorIgualSse(a, b);
  }

  /** Author equality is an equivalence relation. */
  lemma AutorIgualEquivalencia(a: Autor, b: Autor, c: Autor)
    ensures a.Igual(a)
    ensures a.Igual(b) ==> b.Igual(a)
    ensures a.Igual(b) && b.Igual(c) ==> a.Igual(c)
  {
    AutorIgualSse(a, b);
    AutorIgualSse(b, a);
    AutorIgualSse(b, c);
    AutorIgualSse(a, c);
  }

  /** For a year before birth, getIdadeEm answers 0 where null is intended. */
  lemma IdadeAntesDoNascimento(a: Autor, ano: int)
    requires a.anoNascimento.Some? && ano < a.anoNascimento.value && ano - a.anoNascimento.value >= MIN_INT
    requires AnosVidaValidos(a.anoNascimento, a.anoFalecimento)
    ensures a.IdadeEm(ano) == Some(0)
    ensures a.IdadeEmCorrigida(ano) == None
  {
  }

  /** The two versions of getIdadeEm agree from the birth year on, while the age fits in an int. */
  lemma IdadeEmConcordaAposNascimento(a: Autor, ano: int)
    requires a.anoNascimento.Some? && ano >= a.anoNascimento.value && ano - a.anoNascimento.value <= MAX_INT
    ensures a.IdadeEm(ano) == a.IdadeEmCorrigida(ano)
  {
  }

  /**
   * The subtraction wraps: born in year -1, the author's age in the largest
   * int year is 2^31, which Java's int reads as negative, so the answer is 0.
   */
  lemma IdadeEmTransbordo(a: Autor, b: Autor)
    requires a.anoNascimento == Some(-1) && a.anoFalecimento.None?
    requires b.anoNascimento == Some(1000) && b.anoFalecimento.None?
    ensures a.IdadeEm(MAX_INT) == Some(0)
    ensures a.IdadeEmCorrigida(MAX_INT) == Some(MAX_INT + 1)
    ensures b.IdadeEm(-2147483000) == Some(2147483296)
  {
    assert Int32(MAX_INT + 1) == MIN_INT;
    assert Int32(-2147483000 - 1000) == 2147483296;
  }

  // ---------------------------------------------------------------------
  // Livro
  // ---------------------------------------------------------------------

  class Livro {
    var id: Option<int>
    var titulo: Option<string>
    var idioma: Option<string>
    var numeroDownloads: Option<int>
    var autor: Autor?

    /** new Livro(): every field null. */
    constructor Vazio()
      ensures id.None? && titulo.None? && idioma.None? && numeroDownloads.None? && autor == null
    {
      id := None;
      titulo := None;
      idioma := None;
      numeroDownloads := None;
      autor := null;
    }

    /** new Livro(id, titulo, idioma, numeroDownloads, autor) */
    constructor (id: Option<int>, titulo: Option<string>, idioma: Option<string>,
                 numeroDownloads: Option<int>, autor: Autor?)
      ensures this.id == id && this.titulo == titulo && this.idioma == idioma
      ensures this.numeroDownloads == numeroDownloads && this.autor == autor
    {
      this.id := id;
      this.titulo := titulo;
      this.idioma := idioma;
      this.numeroDownloads := numeroDownloads;
      this.autor := autor;
    }

    /** setId: assigns without any check, null included. */
    method SetId(novo: Option<int>)
      modifies this`id
      ensures id == novo
    {
      id := novo;
    }

    /** setTitulo */
    method SetTitulo(novo: Option<string>)
      modifies this`titulo
      ensures titulo == novo
    {
      titulo := novo;
    }

    /** setIdioma */
    method SetIdioma(novo: Option<string>)
      modifies this`idioma
      ensures idioma == novo
    {
      idioma := novo;
    }

    /** setNumeroDownloads */
    method SetNumeroDownloads(novo: Option<int>)
      modifies this`numeroDownloads
      ensures numeroDownloads == novo
    {
      numeroDownloads := novo;
    }

    /** setAutor: the back-reference only; the author's list is not touched. */
    method SetAutor(novo: Autor?)
      modifies this`autor
      ensures autor == novo
    {
      autor := novo;
    }

    /** equals: the same object, or equal ids (two null ids are equal). */
    predicate Igual(outro: Livro)
      reads this, outro
    {
      this == outro || id == outro.id
    }

    /** hashCode: Long.hashCode of the id, 0 for a null id. */
    function HashCode(): (h: int)
      reads this
      ensures MIN_INT <= h <= MAX_INT
      ensures id.None? ==> h == 0
    {
      if id.Some? then HashLong(id.value) else 0
    }

    /**
     * The columns of toString: the title cut to 50 characters, the author's
     * name cut to 30 (or "Autor desconhecido"), the language name, and the
     * download count with null shown as 0. A null title, or a linked author
     * whose name is null, throws NullPointerException.
     */
    function Exibicao(): (r: Result<LinhaLivro>)
      reads this, autor
      ensures r.Failure? <==> titulo.None? || (autor != null && autor.nome.None?)
      ensures r.Failure? ==> r.error == ReferenciaNula
      ensures r.Success? ==> |r.value.titulo| <= 50 && |r.value.autor| <= 30
      ensures r.Success? && |titulo.value| <= 50 ==> r.value.titulo == titulo.value
      ensures r.Success? && |titulo.value| > 50 ==> r.value.titulo == titulo.value[..47] + "..."
      ensures r.Success? && autor == null ==> r.value.autor == "Autor desconhecido"
      ensures r.Success? && autor != null && |autor.nome.value| <= 30 ==> r.value.autor == autor.nome.value
      ensures r.Success? && autor != null && |autor.nome.value| > 30 ==>
                r.value.autor == autor.nome.value[..27] + "..."
      ensures r.Success? ==> r.value.idioma == NomeDoIdioma(idioma)
      ensures r.Success? ==> r.value.downloads == if numeroDownloads.Some? then numeroDownloads.value else 0
    {
      if titulo.None? || (autor != null && autor.nome.None?) then Failure(ReferenciaNula)
      else
        Success(LinhaLivro(
          Truncar(titulo.value, 50),
          if autor == null then "Autor desconhecido" else Truncar(autor.nome.value, 30),
          NomeDoIdioma(idioma),
          if numeroDownloads.Some? then numeroDownloads.value else 0))
    }
  }

  /** Two books are equal exactly when their ids are equal. */
  lemma LivroIgualSse(a: Livro, b: Livro)
    ensures a.Igual(b) <==> a.id == b.id
    ensures a.Igual(b) ==> a.HashCode() == b.HashCode()
  {
  }

  /** The unit tests' author, born 1839 and dead 1908: alive and aged by year. */
  method CenarioVidaDoAutor()
  {
    var autor := new Autor();
    var v := autor.SetAnoNascimento(Some(1839));
    assert v == Pass;
    v := autor.SetAnoFalecimento(Some(1908));
    assert v == Pass;
    assert autor.EstaVivo(1850) == Success(true) && autor.EstaVivo(1900) == Success(true);
    assert autor.EstaVivo(1820) == Success(false) && autor.EstaVivo(1950) == Success(false);
    assert autor.IdadeEm(1900) == Some(61) && autor.IdadeEm(1839) == Some(0);
    v := autor.SetAnoNascimento(Some(1910));
    assert v.Fail? && autor.anoNascimento == Some(1910);
  }

  /**
   * The unit tests' author and book: adding the book links it, adding it
   * again keeps one copy, and removing it empties the list and unlinks it.
   */
  method CenarioLivrosDoAutor()
  {
    var autor := new Autor();
    var livro := new Livro(Some(55752), Some("Dom Casmurro"), Some("pt"), Some(1234), null);
    var v := autor.AdicionarLivro(livro);
    assert autor.livros == [livro] && livro.autor == autor;
    v := autor.AdicionarLivro(livro);
    assert autor.livros == [livro];
    autor.RemoverLivro(livro);
    assert autor.livros == [] && livro.autor == null;
  }
}
