/**
 * The catalogue service: the title-search flow that may store a book, the
 * save that resolves or creates its author, and the input guards of the
 * listing and statistics queries.
 *
 * The store is the two tables held by the class Literalura. Console input
 * lines, the network and the JSON decoder are parameters.
 */
module Servico {
  import opened Comum
  import opened Texto
  import opened Dto
  import opened AutorRepositorio
  import opened LivroRepositorio
  import Modelo
  import Api

  const MSG_SEM_AUTOR := "Livro deve ter pelo menos um autor"
  const MSG_ID_AUSENTE := "ids for this class must be manually assigned before calling save()"
  const MSG_TITULO_NULO := "not-null property references a null or transient value : com.literalura.literalura.model.Livro.titulo"
  const MSG_CONVERSAO := "Falha na conversão do JSON"
  const MSG_ANO_INVALIDO := "Ano inválido! Digite apenas números."
  const MSG_IDIOMA_VAZIO := "Código de idioma não pode estar vazio!"
  const TOP_ESTATISTICAS: nat := 3

  /** The two tables and the next generated author key. */
  datatype Banco = Banco(autores: seq<AutorRegistro>, livros: seq<LivroRegistro>, proximoAutorId: nat)

  predicate AutorExiste(autores: seq<AutorRegistro>, id: nat) {
    exists i :: 0 <= i < |autores| && autores[i].id == id
  }

  /**
   * What the store keeps true: author keys are distinct, positive and below
   * the next key, no two author names are equal ignoring case, every author's years
   * are valid, book ids are distinct, and every book's author is stored.
   */
  ghost predicate BancoValido(b: Banco) {
    && b.proximoAutorId >= 1
    && (forall i :: 0 <= i < |b.autores| ==> 1 <= b.autores[i].id < b.proximoAutorId)
    && (forall i, j :: 0 <= i < j < |b.autores| ==> b.autores[i].id != b.autores[j].id)
    && (forall i, j :: 0 <= i < j < |b.autores| ==> !IgualIgnorandoCaixa(b.autores[i].nome, b.autores[j].nome))
    && (forall i :: 0 <= i < |b.autores| ==>
          Modelo.AnosVidaValidos(b.autores[i].anoNascimento, b.autores[i].anoFalecimento))
    && IdsUnicos(b.livros)
    && (forall k :: 0 <= k < |b.livros| ==> AutorExiste(b.autores, b.livros[k].autorId))
  }

  // ---------------------------------------------------------------------
  // salvarLivroNoBanco, as a function of the store
  // ---------------------------------------------------------------------

  /**
   * The author a book is saved under: the stored author whose name equals
   * the DTO's ignoring case, else a new author with the next key, unless
   * its years are invalid. Yields the new store and the author's key.
   */
  function ResolverAutor(b: Banco, a: AutorDto): (r: Result<(Banco, nat)>)
    ensures FindByNomeIgnoreCase(b.autores, a.nome).Some? ==>
              r == Success((b, FindByNomeIgnoreCase(b.autores, a.nome).value.id))
    ensures FindByNomeIgnoreCase(b.autores, a.nome).None? && !Modelo.AnosVidaValidos(a.anoNascimento, a.anoFalecimento) ==>
              r == Failure(ArgumentoInvalido(Modelo.MSG_ANOS_VIDA))
    ensures FindByNomeIgnoreCase(b.autores, a.nome).None? && Modelo.AnosVidaValidos(a.anoNascimento, a.anoFalecimento) ==>
              r == Success((b.(autores := b.autores + [AutorRegistro(b.proximoAutorId, a.nome, a.anoNascimento, a.anoFalecimento)],
                               proximoAutorId := b.proximoAutorId + 1), b.proximoAutorId))
  {
    var existente := FindByNomeIgnoreCase(b.autores, a.nome);
    if existente.Some? then Success((b, existente.value.id))
    else if !Modelo.AnosVidaValidos(a.anoNascimento, a.anoFalecimento) then
      Failure(ArgumentoInvalido(Modelo.MSG_ANOS_VIDA))
    else
      var novo := AutorRegistro(b.proximoAutorId, a.nome, a.anoNascimento, a.anoFalecimento);
      Success((b.(autores := b.autores + [novo], proximoAutorId := b.proximoAutorId + 1), b.proximoAutorId))
  }

  /** The resolved author is stored under the resolved key, with the DTO's name up to case. */
  lemma ResolverAutorEncontra(b: Banco, a: AutorDto)
    requires ResolverAutor(b, a).Success?
    ensures ResolverAutor(b, a).value.0.livros == b.livros
    ensures exists i :: 0 <= i < |ResolverAutor(b, a).value.0.autores|
                        && ResolverAutor(b, a).value.0.autores[i].id == ResolverAutor(b, a).value.1
                        && IgualIgnorandoCaixa(ResolverAutor(b, a).value.0.autores[i].nome, a.nome)
  {
    var existente := FindByNomeIgnoreCase(b.autores, a.nome);
    if existente.Some? {
      var i :| 0 <= i < |b.autores| && b.autores[i] == existente.value;
    } else {
      var b2 := ResolverAutor(b, a).value.0;
      IgualIgnorandoCaixaReflexiva(a.nome);
      assert b2.autores[|b.autores|].nome == a.nome;
    }
  }

  /** The row stored for a DTO under an author key. */
  function RegistroDoLivro(dto: LivroDto, autorId: nat): LivroRegistro
    requires dto.id.Some? && dto.titulo.Some?
  {
    LivroRegistro(dto.id.value, dto.titulo.value, dto.PrimeiroIdioma(), dto.numeroDownloads, autorId)
  }

  /**
   * salvarLivroNoBanco: no first author fails before any write; otherwise
   * the author is resolved (and created if new), and then the book row is
   * saved under it. A book without an id, or without a title (the column
   * is NOT NULL), is refused by the book table after a new author has
   * already been written.
   */
  function SalvarNoBanco(b: Banco, dto: LivroDto): (r: (Outcome, Banco))
    ensures dto.PrimeiroAutor().None? ==> r == (Fail(Dominio(MSG_SEM_AUTOR)), b)
    ensures r.0.Fail? ==> r.1.livros == b.livros
    ensures r.0.Fail? && !r.0.error.Persistencia? ==> r.1 == b
    ensures r.0.Pass? <==> dto.PrimeiroAutor().Some? && dto.id.Some? && dto.titulo.Some?
                           && ResolverAutor(b, dto.PrimeiroAutor().value).Success?
    ensures r.0.Fail? && dto.PrimeiroAutor().Some? && ResolverAutor(b, dto.PrimeiroAutor().value).Success? ==>
              r == (Fail(Persistencia(if dto.id.None? then MSG_ID_AUSENTE else MSG_TITULO_NULO)),
                    ResolverAutor(b, dto.PrimeiroAutor().value).value.0)
    ensures r.0.Pass? ==> r.1.livros == Salvar(b.livros, RegistroDoLivro(dto, ResolverAutor(b, dto.PrimeiroAutor().value).value.1))
    ensures r.0.Pass? ==> r.1.autores == ResolverAutor(b, dto.PrimeiroAutor().value).value.0.autores
    ensures r.0.Pass? ==> ExistsById(r.1.livros, dto.id.value) && |r.1.autores| <= |b.autores| + 1
  {
    var primeiro := dto.PrimeiroAutor();
    if primeiro.None? then (Fail(Dominio(MSG_SEM_AUTOR)), b)
    else
      var resolvido := ResolverAutor(b, primeiro.value);
      if resolvido.Failure? then (Fail(resolvido.error), b)
      else
        var (b2, autorId) := resolvido.value;
        if dto.id.None? then (Fail(Persistencia(MSG_ID_AUSENTE)), b2)
        else if dto.titulo.None? then (Fail(Persistencia(MSG_TITULO_NULO)), b2)
        else (Pass, b2.(livros := Salvar(b2.livros, RegistroDoLivro(dto, autorId))))
  }

  /** A saved book is linked to a stored author whose name matches the DTO's first author up to case. */
  lemma SalvarNoBancoLigaAutor(b: Banco, dto: LivroDto)
    requires SalvarNoBanco(b, dto).0.Pass?
    ensures exists i :: 0 <= i < |SalvarNoBanco(b, dto).1.autores|
                        && IgualIgnorandoCaixa(SalvarNoBanco(b, dto).1.autores[i].nome, dto.PrimeiroAutor().value.nome)
                        && SalvarNoBanco(b, dto).1.livros == Salvar(b.livros, RegistroDoLivro(dto, SalvarNoBanco(b, dto).1.autores[i].id))
  {
    ResolverAutorEncontra(b, dto.PrimeiroAutor().value);
  }

  /** Saving keeps every rule of the store. */
  lemma SalvarNoBancoPreservaValido(b: Banco, dto: LivroDto)
    requires BancoValido(b)
    ensures BancoValido(SalvarNoBanco(b, dto).1)
  {
    if dto.PrimeiroAutor().Some? && ResolverAutor(b, dto.PrimeiroAutor().value).Success? {
      var a := dto.PrimeiroAutor().value;
      var (b2, autorId) := ResolverAutor(b, a).value;
      ResolverAutorPreservaValido(b, a);
      if dto.id.Some? && dto.titulo.Some? {
        LigarLivroPreservaValido(b2, RegistroDoLivro(dto, autorId));
      }
    }
  }

  /** Saving a row whose author is stored keeps every rule of the store. */
  lemma LigarLivroPreservaValido(b: Banco, l: LivroRegistro)
    requires BancoValido(b) && AutorExiste(b.autores, l.autorId)
    ensures BancoValido(b.(livros := Salvar(b.livros, l)))
  {
    var livros := Salvar(b.livros, l);
    forall k | 0 <= k < |livros|
      ensures AutorExiste(b.autores, livros[k].autorId)
    {
      if livros[k] != l {
        var j :| 0 <= j < |b.livros| && b.livros[j] == livros[k];
      }
    }
  }

  /** Resolving the author keeps the store's rules, and the resolved key is stored. */
  lemma ResolverAutorPreservaValido(b: Banco, a: AutorDto)
    requires BancoValido(b) && ResolverAutor(b, a).Success?
    ensures BancoValido(ResolverAutor(b, a).value.0)
    ensures AutorExiste(ResolverAutor(b, a).value.0.autores, ResolverAutor(b, a).value.1)
  {
    var existente := FindByNomeIgnoreCase(b.autores, a.nome);
    if existente.Some? {
      var i :| 0 <= i < |b.autores| && b.autores[i] == existente.value;
    } else {
      var novo := AutorRegistro(b.proximoAutorId, a.nome, a.anoNascimento, a.anoFalecimento);
      AcrescentarAutorPreservaValido(b, novo);
      assert (b.autores + [novo])[|b.autores|] == novo;
    }
  }

  /**
   * Appending an author with the next key, valid years and a name unlike
   * every stored one ignoring case keeps the store's rules.
   */
  lemma AcrescentarAutorPreservaValido(b: Banco, novo: AutorRegistro)
    requires BancoValido(b) && novo.id == b.proximoAutorId
    requires Modelo.AnosVidaValidos(novo.anoNascimento, novo.anoFalecimento)
    requires forall i :: 0 <= i < |b.autores| ==> !IgualIgnorandoCaixa(b.autores[i].nome, novo.nome)
    ensures BancoValido(b.(autores := b.autores + [novo], proximoAutorId := b.proximoAutorId + 1))
  {
    var autores := b.autores + [novo];
    var n := |b.autores|;
    assert forall i :: 0 <= i < n ==> autores[i] == b.autores[i];
    assert autores[n] == novo;
    forall k | 0 <= k < |b.livros|
      ensures AutorExiste(autores, b.livros[k].autorId)
    {
      var i :| 0 <= i < n && b.autores[i].id == b.livros[k].autorId;
      assert autores[i] == b.autores[i];
    }
  }

  /**
   * First write wins: saving a book whose author's name differs only in case
   * from a stored author's adds no author and links the book to that author.
   */
  lemma AutorExistenteReutilizado(b: Banco, dto: LivroDto, k: int)
    requires BancoValido(b)
    requires dto.PrimeiroAutor().Some? && 0 <= k < |b.autores|
    requires IgualIgnorandoCaixa(b.autores[k].nome, dto.PrimeiroAutor().value.nome)
    ensures SalvarNoBanco(b, dto).1.autores == b.autores
    ensures SalvarNoBanco(b, dto).0.Pass? ==>
              SalvarNoBanco(b, dto).1.livros == Salvar(b.livros, RegistroDoLivro(dto, b.autores[k].id))
  {
    var nome := dto.PrimeiroAutor().value.nome;
    var existente := FindByNomeIgnoreCase(b.autores, nome);
    var i :| 0 <= i < |b.autores| && b.autores[i] == existente.value;
    if i != k {
      IgualIgnorandoCaixaSimetrica(b.autores[k].nome, nome);
      IgualIgnorandoCaixaTransitiva(b.autores[i].nome, nome, b.autores[k].nome);
      IgualIgnorandoCaixaSimetrica(b.autores[i].nome, b.autores[k].nome);
    }
  }

  // ---------------------------------------------------------------------
  // The title-search flow
  // ---------------------------------------------------------------------

  /**
   * The reply that confirms saving: "s" or "sim" after trimming and
   * lower-casing, that is, the trimmed reply is "s" or "sim" in any case.
   */
  predicate Confirmado(linhaResposta: string)
    ensures Confirmado(linhaResposta) <==>
              IgualIgnorandoCaixa(Trim(linhaResposta), "s") || IgualIgnorandoCaixa(Trim(linhaResposta), "sim")
  {
    IgualIgnorandoCaixaSse(Trim(linhaResposta), "s");
    IgualIgnorandoCaixaSse(Trim(linhaResposta), "sim");
    var resposta := ParaMinusculas(Trim(linhaResposta));
    resposta == "s" || resposta == "sim"
  }

  /** Confirmation does not depend on case or surrounding blanks ("SIM", " s "). */
  lemma ConfirmadoIgnoraCaixa(a: string, b: string)
    requires IgualIgnorandoCaixa(Trim(a), Trim(b))
    ensures Confirmado(a) <==> Confirmado(b)
  {
    IgualIgnorandoCaixaSse(Trim(a), Trim(b));
  }

  /**
   * The search response for a trimmed title: the request as written,
   * decoded; a failed request or a failed decoding is an error. Paired
   * with the number of attempts made, which is never more than one.
   */
  function RespostaDaBusca(titulo: string, codificar: string -> string, rede: (string, nat) -> Api.Envio,
                           decodificar: string -> Option<GutendexResponseDto>): (r: (Result<GutendexResponseDto>, nat))
    ensures Api.UrlBuscaPorTitulo(Some(titulo), codificar).Failure? ==>
              r == (Failure(Api.UrlBuscaPorTitulo(Some(titulo), codificar).error), 0)
    ensures Api.UrlBuscaPorTitulo(Some(titulo), codificar).Success? ==> r.1 == 1
    ensures Api.UrlBuscaPorTitulo(Some(titulo), codificar).Success? && r.0.Failure? ==>
              r.0.error == ConversaoDados(MSG_CONVERSAO) || (r.0.error.Api? && r.0.error.status == 0)
    ensures Api.UrlBuscaPorTitulo(Some(titulo), codificar).Success? && r.0.Success? ==>
              var corpo := Api.ExecutarRequisicao(rede(Api.UrlBuscaPorTitulo(Some(titulo), codificar).value, 1), 1);
              corpo.Success? && decodificar(corpo.value) == Some(r.0.value)
  {
    var url := Api.UrlBuscaPorTitulo(Some(titulo), codificar);
    if url.Failure? then (Failure(url.error), 0)
    else
      var (corpo, n) := Api.Requisicao(Api.TentativaComoEscrita(rede, url.value));
      Api.ComoEscritoNuncaRetenta(rede, url.value);
      Api.PoliticaDeRetentativa(Api.TentativaComoEscrita(rede, url.value), 1);
      if corpo.Failure? then (Failure(corpo.error), n)
      else
        var decodificada := decodificar(corpo.value);
        if decodificada.None? then (Failure(ConversaoDados(MSG_CONVERSAO)), n)
        else (Success(decodificada.value), n)
  }

  /** How a title search ended. */
  datatype Desfecho =
    | TituloVazio
    | FalhaNaBusca(erro: Erro)
    | NenhumResultado
    | JaCadastrado(livro: LivroDto)
    | NaoSalvo(livro: LivroDto)
    | Salvo(livro: LivroDto)
    | FalhaAoSalvar(livro: LivroDto, erro: Erro)

  /**
   * The flow of buscarLivrosPorTitulo as a function of the store: the
   * outcome and the store after it.
   */
  function Busca(b: Banco, linhaTitulo: string, resposta: Result<GutendexResponseDto>, linhaResposta: string): (r: (Desfecho, Banco))
    ensures Trim(linhaTitulo) == [] ==> r == (TituloVazio, b)
    ensures Trim(linhaTitulo) != [] && resposta.Failure? ==> r == (FalhaNaBusca(resposta.error), b)
    ensures Trim(linhaTitulo) != [] && resposta.Success? && !resposta.value.TemResultados() ==>
              r == (NenhumResultado, b)
    ensures r.0.JaCadastrado? || r.0.NaoSalvo? || r.0.Salvo? || r.0.FalhaAoSalvar? ==>
              resposta.Success? && resposta.value.PrimeiroLivro() == Some(r.0.livro)
    ensures Trim(linhaTitulo) != [] && resposta.Success? && resposta.value.TemResultados() ==>
              var dto := resposta.value.PrimeiroLivro().value;
              dto.id.Some? && ExistsById(b.livros, dto.id.value) ==> r == (JaCadastrado(dto), b)
    ensures Trim(linhaTitulo) != [] && resposta.Success? && resposta.value.TemResultados() ==>
              var dto := resposta.value.PrimeiroLivro().value;
              !(dto.id.Some? && ExistsById(b.livros, dto.id.value)) && !Confirmado(linhaResposta) ==>
                r == (NaoSalvo(dto), b)
    ensures Trim(linhaTitulo) != [] && resposta.Success? && resposta.value.TemResultados() ==>
              var dto := resposta.value.PrimeiroLivro().value;
              !(dto.id.Some? && ExistsById(b.livros, dto.id.value)) && Confirmado(linhaResposta) ==>
                r.1 == SalvarNoBanco(b, dto).1
                && r.0 == if SalvarNoBanco(b, dto).0.Pass? then Salvo(dto) else FalhaAoSalvar(dto, SalvarNoBanco(b, dto).0.error)
    ensures !r.0.Salvo? && !r.0.FalhaAoSalvar? ==> r.1 == b
    ensures !Confirmado(linhaResposta) ==> r.1 == b
    ensures r.0.JaCadastrado? ==> r.0.livro.id.Some? && ExistsById(b.livros, r.0.livro.id.value)
    ensures r.0.Salvo? ==> Confirmado(linhaResposta) && r.0.livro.id.Some?
                           && !ExistsById(b.livros, r.0.livro.id.value)
                           && ExistsById(r.1.livros, r.0.livro.id.value)
    ensures r.0.Salvo? || r.0.FalhaAoSalvar? ==> r.1 == SalvarNoBanco(b, r.0.livro).1
    ensures r.0.FalhaAoSalvar? ==> Confirmado(linhaResposta) && SalvarNoBanco(b, r.0.livro).0 == Fail(r.0.erro)
  {
    if Trim(linhaTitulo) == [] then (TituloVazio, b)
    else if resposta.Failure? then (FalhaNaBusca(resposta.error), b)
    else if !resposta.value.TemResultados() then (NenhumResultado, b)
    else
      var dto := resposta.value.PrimeiroLivro().value;
      if dto.id.Some? && ExistsById(b.livros, dto.id.value) then (JaCadastrado(dto), b)
      else if !Confirmado(linhaResposta) then (NaoSalvo(dto), b)
      else
        var (v, b2) := SalvarNoBanco(b, dto);
        if v.Pass? then (Salvo(dto), b2) else (FalhaAoSalvar(dto, v.error), b2)
  }

  /** Running the flow twice on the same answer: the second run finds the book already stored. */
  lemma BuscaRepetidaJaCadastrada(b: Banco, linhaTitulo: string, resposta: Result<GutendexResponseDto>,
                                    linha1: string, linha2: string)
    requires Busca(b, linhaTitulo, resposta, linha1).0.Salvo?
    ensures Busca(Busca(b, linhaTitulo, resposta, linha1).1, linhaTitulo, resposta, linha2).0 ==
            JaCadastrado(Busca(b, linhaTitulo, resposta, linha1).0.livro)
    ensures Busca(Busca(b, linhaTitulo, resposta, linha1).1, linhaTitulo, resposta, linha2).1 ==
            Busca(b, linhaTitulo, resposta, linha1).1
  {
    var (d, b2) := Busca(b, linhaTitulo, resposta, linha1);
    var dto := resposta.value.PrimeiroLivro().value;
    assert d == Salvo(dto);
    assert dto.id.Some? && ExistsById(b2.livros, dto.id.value);
  }

  /** " S " confirms: trimmed and lower-cased it is "s". */
  lemma ConfirmadoS()
    ensures Confirmado(" S ")
  {
    assert Trim(" S ") == "S";
    assert ParaMinusculas("S") == "s";
  }

  /** Saving the fixture's book on an empty catalogue creates its author with key 1. */
  lemma SalvarDomCasmurro()
    ensures SalvarNoBanco(Banco([], [], 1), RespostaDomCasmurro().PrimeiroLivro().value) ==
            (Pass, Banco([AutorRegistro(1, "Machado de Assis", Some(1839), Some(1908))],
                         [LivroRegistro(55752, "Dom Casmurro", Some("pt"), Some(1234), 1)],
                         2))
  {
    var dto := RespostaDomCasmurro().PrimeiroLivro().value;
    var autor := AutorRegistro(1, "Machado de Assis", Some(1839), Some(1908));
    assert dto.PrimeiroAutor().value == AutorDto("Machado de Assis", Some(1839), Some(1908));
    assert [] + [autor] == [autor];
    assert ResolverAutor(Banco([], [], 1), dto.PrimeiroAutor().value) == Success((Banco([autor], [], 2), 1));
    assert Salvar([], RegistroDoLivro(dto, 1)) == [LivroRegistro(55752, "Dom Casmurro", Some("pt"), Some(1234), 1)];
  }

  /**
   * The unit tests' response on an empty catalogue, answered " S ": Dom
   * Casmurro is saved under a new author Machado de Assis with key 1.
   */
  lemma BuscaDomCasmurro()
    ensures Busca(Banco([], [], 1), "  Dom Casmurro ", Success(RespostaDomCasmurro()), " S ") ==
            (Salvo(RespostaDomCasmurro().PrimeiroLivro().value),
             Banco([AutorRegistro(1, "Machado de Assis", Some(1839), Some(1908))],
                   [LivroRegistro(55752, "Dom Casmurro", Some("pt"), Some(1234), 1)],
                   2))
  {
    var titulo := "  Dom Casmurro ";
    assert !Invisivel(titulo[2]);
    ConfirmadoS();
    SalvarDomCasmurro();
    assert !ExistsById([], 55752);
  }

  // ---------------------------------------------------------------------
  // The service object
  // ---------------------------------------------------------------------

  class Literalura {
    var autores: seq<AutorRegistro>
    var livros: seq<LivroRegistro>
    var proximoAutorId: nat

    function Estado(): Banco
      reads this
    {
      Banco(autores, livros, proximoAutorId)
    }

    ghost predicate Valid()
      reads this
    {
      BancoValido(Estado())
    }

    /** An empty catalogue; generated author keys start at 1. */
    constructor ()
      ensures Valid() && autores == [] && livros == [] && proximoAutorId == 1
    {
      autores := [];
      livros := [];
      proximoAutorId := 1;
    }

    /**
     * The author half of salvarLivroNoBanco: find the author ignoring case,
     * or build one (the Autor constructor validates its years) and insert it.
     */
    method ResolverAutorNoBanco(a: AutorDto) returns (r: Result<nat>)
      modifies this
      ensures livros == old(livros)
      ensures r.Failure? <==> ResolverAutor(old(Estado()), a).Failure?
      ensures r.Failure? ==> r.error == ResolverAutor(old(Estado()), a).error && Estado() == old(Estado())
      ensures r.Success? ==> (Estado(), r.value) == ResolverAutor(old(Estado()), a).value
    {
      var existente := FindByNomeIgnoreCase(autores, a.nome);
      if existente.Some? {
        return Success(existente.value.id);
      }
      var criado := Modelo.Autor.Criar(Some(a.nome), a.anoNascimento, a.anoFalecimento);
      if criado.Failure? {
        return Failure(criado.error);
      }
      r := Success(proximoAutorId);
      autores := autores + [AutorRegistro(proximoAutorId, a.nome, a.anoNascimento, a.anoFalecimento)];
      proximoAutorId := proximoAutorId + 1;
    }

    /**
     * salvarLivroNoBanco: resolve the author, then save the book; the
     * author's insert stays when the book's save fails.
     */
    method SalvarLivroNoBanco(dto: LivroDto) returns (v: Outcome)
      requires Valid()
      modifies this
      ensures Valid()
      ensures (v, Estado()) == SalvarNoBanco(old(Estado()), dto)
    {
      SalvarNoBancoPreservaValido(Estado(), dto);
      var primeiro := dto.PrimeiroAutor();
      if primeiro.None? {
        return Fail(Dominio(MSG_SEM_AUTOR));
      }
      var autorId := ResolverAutorNoBanco(primeiro.value);
      if autorId.Failure? {
        return Fail(autorId.error);
      }
      if dto.id.None? {
        return Fail(Persistencia(MSG_ID_AUSENTE));
      }
      if dto.titulo.None? {
        return Fail(Persistencia(MSG_TITULO_NULO));
      }
      livros := Salvar(livros, RegistroDoLivro(dto, autorId.value));
      v := Pass;
    }

    /**
     * buscarLivrosPorTitulo: the title line is trimmed; a blank one ends the
     * flow before any request. The reply line is read only when the book is
     * not already stored.
     */
    method BuscarLivrosPorTitulo(linhaTitulo: string, codificar: string -> string, rede: (string, nat) -> Api.Envio,
                                 decodificar: string -> Option<GutendexResponseDto>, linhaResposta: string)
      returns (d: Desfecho, tentativas: nat)
      requires Valid()
      modifies this
      ensures Valid()
      ensures Trim(linhaTitulo) == [] ==> tentativas == 0
      ensures Trim(linhaTitulo) != [] ==> tentativas == RespostaDaBusca(Trim(linhaTitulo), codificar, rede, decodificar).1
      ensures (d, Estado()) ==
              Busca(old(Estado()), linhaTitulo, RespostaDaBusca(Trim(linhaTitulo), codificar, rede, decodificar).0, linhaResposta)
    {
      var titulo := Trim(linhaTitulo);
      ghost var resposta := RespostaDaBusca(titulo, codificar, rede, decodificar).0;
      if titulo == [] {
        return TituloVazio, 0;
      }
      var corpo;
      corpo, tentativas := Api.BuscarLivrosPorTitulo(Some(titulo), codificar, rede);
      if corpo.Failure? {
        return FalhaNaBusca(corpo.error), tentativas;
      }
      var decodificada := decodificar(corpo.value);
      if decodificada.None? {
        return FalhaNaBusca(ConversaoDados(MSG_CONVERSAO)), tentativas;
      }
      var pagina := decodificada.value;
      if !pagina.TemResultados() {
        return NenhumResultado, tentativas;
      }
      var dto := pagina.PrimeiroLivro().value;
      if dto.id.Some? && ExistsById(livros, dto.id.value) {
        return JaCadastrado(dto), tentativas;
      }
      var confirmado := ParaMinusculas(Trim(linhaResposta));
      if confirmado == "s" || confirmado == "sim" {
        var v := SalvarLivroNoBanco(dto);
        d := if v.Pass? then Salvo(dto) else FalhaAoSalvar(dto, v.error);
      } else {
        d := NaoSalvo(dto);
      }
    }

    /**
     * listarAutoresVivosEmAno: a line that Integer.parseInt rejects reports
     * an error without querying; otherwise the alive-in-year query.
     */
    method ListarAutoresVivosEmAno(linha: string) returns (r: Result<seq<AutorRegistro>>)
      ensures ParseInt(Trim(linha)).None? ==> r == Failure(Validacao(MSG_ANO_INVALIDO))
      ensures ParseInt(Trim(linha)).Some? ==> r == Success(FindAutoresVivosNoAno(autores, ParseInt(Trim(linha)).value))
    {
      var ano := ParseInt(Trim(linha));
      if ano.None? {
        return Failure(Validacao(MSG_ANO_INVALIDO));
      }
      r := Success(FindAutoresVivosNoAno(autores, ano.value));
    }

    /**
     * listarLivrosPorIdioma: the distinct stored codes are listed first; an
     * empty code after trimming and lower-casing ends before the query.
     */
    method ListarLivrosPorIdioma(linha: string) returns (disponiveis: seq<string>, r: Result<seq<LivroRegistro>>)
      ensures disponiveis == FindIdiomasDistintos(livros)
      ensures Trim(linha) == [] ==> r == Failure(Validacao(MSG_IDIOMA_VAZIO))
      ensures Trim(linha) != [] ==> r == Success(FindByIdiomaIgnoreCase(livros, ParaMinusculas(Trim(linha))))
      ensures r.Success? ==> forall i :: 0 <= i < |r.value| ==>
                r.value[i].idioma.Some? && IgualIgnorandoCaixa(r.value[i].idioma.value, Trim(linha))
    {
      disponiveis := FindIdiomasDistintos(livros);
      var codigo := ParaMinusculas(Trim(linha));
      if codigo == [] {
        return disponiveis, Failure(Validacao(MSG_IDIOMA_VAZIO));
      }
      r := Success(FindByIdiomaIgnoreCase(livros, codigo));
      forall i | 0 <= i < |r.value|
        ensures IgualIgnorandoCaixa(r.value[i].idioma.value, Trim(linha))
      {
        IgualIgnorandoCaixaMinusculas(Trim(linha));
        IgualIgnorandoCaixaSimetrica(Trim(linha), codigo);
        IgualIgnorandoCaixaTransitiva(r.value[i].idioma.value, codigo, Trim(linha));
      }
    }

    /**
     * exibirEstatisticas: the two counts and the distinct codes; the top-3
     * query runs only when some book is stored.
     */
    method ExibirEstatisticas() returns (totalLivros: nat, totalAutores: nat, idiomas: seq<string>,
                                         top: Option<seq<LivroRegistro>>)
      ensures totalLivros == |livros| && totalAutores == |autores|
      ensures idiomas == FindIdiomasDistintos(livros)
      ensures top.Some? <==> totalLivros > 0
      ensures top.Some? ==> top.value == FindTopLivrosMaisBaixados(livros, TOP_ESTATISTICAS)
                            && 1 <= |top.value| <= TOP_ESTATISTICAS
    {
      totalLivros := |livros|;
      totalAutores := |autores|;
      idiomas := FindIdiomasDistintos(livros);
      top := None;
      if totalLivros > 0 {
        top := Some(FindTopLivrosMaisBaixados(livros, TOP_ESTATISTICAS));
      }
    }
  }
}
