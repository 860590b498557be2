/**
 * The HTTP request policy of the Gutendex client, without the network:
 * how a response maps to a body or an error, how failed attempts are
 * retried, and how the search URLs are validated and built.
 *
 * The network is a parameter `rede`: for a URL and an attempt number it
 * yields what HttpClient.send produced (a response, or the exception it
 * threw). URL encoding is a parameter `codificar`.
 */
module Api {
  import opened Comum
  import opened Texto

  const BASE_URL := "https://gutendex.com/books/"
  const MAX_RETRIES: nat := 3

  const MSG_RESPOSTA_VAZIA := "Resposta vazia da API"
  const MSG_INTERROMPIDA := "Requisição interrompida"
  const MSG_MAXIMO_TENTATIVAS := "Máximo de tentativas excedido"
  const PREFIXO_INESPERADO := "Erro inesperado: "
  const MSG_TITULO_VAZIO := "Título não pode estar vazio"
  const MSG_TITULO_LONGO := "Título muito longo (máximo 500 caracteres)"
  const MSG_AUTOR_VAZIO := "Nome do autor não pode estar vazio"
  const MSG_IDIOMA_VAZIO := "Código do idioma não pode estar vazio"
  const MSG_IDIOMA_INVALIDO := "Código de idioma inválido. Use códigos como 'pt', 'en', 'es'"
  const TAMANHO_MAXIMO_TITULO := 500

  /** A received HTTP response: its status code and its body (null when absent). */
  datatype RespostaHttp = RespostaHttp(status: int, corpo: Option<string>)

  /** What one HttpClient.send call produced. */
  datatype Envio =
    | Recebida(resposta: RespostaHttp)
    | FalhaConexao(detalhe: string)     // IOException
    | Interrompida                      // InterruptedException
    | FalhaInesperada(detalhe: string)  // any other exception

  // ---------------------------------------------------------------------
  // processarResposta
  // ---------------------------------------------------------------------

  predicate Sucesso2xx(status: int) {
    200 <= status < 300
  }

  /** The status codes processarResposta gives a fixed message. */
  const CODIGOS_COM_MENSAGEM: set<int> := {400, 401, 403, 404, 429, 500, 502, 503, 504}

  /** The message of a non-2xx status: the fixed table, else "Erro HTTP " and the code. */
  function MensagemStatus(status: int): (m: string)
    ensures status == 400 ==> m == "Requisição inválida - verifique os parâmetros"
    ensures status == 401 ==> m == "Não autorizado - credenciais inválidas"
    ensures status == 403 ==> m == "Acesso negado"
    ensures status == 404 ==> m == "Endpoint não encontrado"
    ensures status == 429 ==> m == "Muitas requisições - aguarde antes de tentar novamente"
    ensures status == 500 ==> m == "Erro interno do servidor da API"
    ensures status == 502 ==> m == "Bad Gateway - servidor temporariamente indisponível"
    ensures status == 503 ==> m == "Serviço indisponível - tente novamente mais tarde"
    ensures status == 504 ==> m == "Timeout do gateway - servidor demorou para responder"
    ensures status !in CODIGOS_COM_MENSAGEM ==> m == "Erro HTTP " + IntParaTexto(status)
  {
    match status
    case 400 => "Requisição inválida - verifique os parâmetros"
    case 401 => "Não autorizado - credenciais inválidas"
    case 403 => "Acesso negado"
    case 404 => "Endpoint não encontrado"
    case 429 => "Muitas requisições - aguarde antes de tentar novamente"
    case 500 => "Erro interno do servidor da API"
    case 502 => "Bad Gateway - servidor temporariamente indisponível"
    case 503 => "Serviço indisponível - tente novamente mais tarde"
    case 504 => "Timeout do gateway - servidor demorou para responder"
    case _ => "Erro HTTP " + IntParaTexto(status)
  }

  /** For a code outside the table, the status can be read back from the message. */
  lemma MensagemStatusGenerica(status: int)
    requires MIN_INT <= status <= MAX_INT
    requires status !in CODIGOS_COM_MENSAGEM
    ensures |MensagemStatus(status)| > 10
    ensures MensagemStatus(status)[..10] == "Erro HTTP "
    ensures ParseInt(MensagemStatus(status)[10..]) == Some(status)
  {
    var m := MensagemStatus(status);
    assert m[10..] == IntParaTexto(status);
    ParseIntDeIntParaTexto(status);
  }

  /**
   * processarResposta: a 2xx status with a non-blank body yields the body
   * verbatim; every other response fails with its own status code.
   */
  function ProcessarResposta(resposta: RespostaHttp): (r: Result<string>)
    ensures r.Success? <==> Sucesso2xx(resposta.status) && resposta.corpo.Some? && Trim(resposta.corpo.value) != []
    ensures r.Success? ==> r.value == resposta.corpo.value
    ensures r.Failure? ==> r.error.Api? && r.error.status == resposta.status
    ensures r.Failure? && Sucesso2xx(resposta.status) ==> r.error.mensagem == MSG_RESPOSTA_VAZIA
    ensures r.Failure? && !Sucesso2xx(resposta.status) ==> r.error.mensagem == MensagemStatus(resposta.status)
  {
    if Sucesso2xx(resposta.status) then
      if resposta.corpo.None? || Trim(resposta.corpo.value) == [] then
        Failure(Api(MSG_RESPOSTA_VAZIA, resposta.status))
      else
        Success(resposta.corpo.value)
    else
      Failure(Api(MensagemStatus(resposta.status), resposta.status))
  }

  // ---------------------------------------------------------------------
  // executarRequisicao: one attempt
  // ---------------------------------------------------------------------

  function MensagemConexao(tentativa: nat, detalhe: string): string {
    "Erro de conexão na tentativa " + IntParaTexto(tentativa) + ": " + detalhe
  }

  /**
   * executarRequisicao as written. Its last handler, for any Exception, also
   * catches the ApiException that processarResposta throws, so an HTTP error
   * status is replaced by status 0 and its message gets a prefix.
   */
  function ExecutarRequisicao(envio: Envio, tentativa: nat): (r: Result<string>)
    ensures r.Failure? ==> r.error.Api? && r.error.status == 0
    ensures r.Success? <==> envio.Recebida? && ProcessarResposta(envio.resposta).Success?
    ensures r.Success? ==> r.value == envio.resposta.corpo.value
    ensures envio.Recebida? && r.Failure? ==>
              r.error.mensagem == PREFIXO_INESPERADO + ProcessarResposta(envio.resposta).error.mensagem
  {
    match envio
    case Recebida(resposta) =>
      var processada := ProcessarResposta(resposta);
      if processada.Success? then processada
      else Failure(Api(PREFIXO_INESPERADO + processada.error.mensagem, 0))
    case FalhaConexao(detalhe) => Failure(Api(MensagemConexao(tentativa, detalhe), 0))
    case Interrompida => Failure(Api(MSG_INTERROMPIDA, 0))
    case FalhaInesperada(detalhe) => Failure(Api(PREFIXO_INESPERADO + detalhe, 0))
  }

  /**
   * executarRequisicao as intended: the ApiException of processarResposta
   * propagates unchanged; only exceptions from the transport become status 0.
   */
  function ExecutarRequisicaoCorrigida(envio: Envio, tentativa: nat): (r: Result<string>)
    ensures envio.Recebida? ==> r == ProcessarResposta(envio.resposta)
    ensures !envio.Recebida? ==> r.Failure? && r.error.Api? && r.error.status == 0
    ensures envio.FalhaConexao? ==> r.error.mensagem == MensagemConexao(tentativa, envio.detalhe)
  {
    match envio
    case Recebida(resposta) => ProcessarResposta(resposta)
    case FalhaConexao(detalhe) => Failure(Api(MensagemConexao(tentativa, detalhe), 0))
    case Interrompida => Failure(Api(MSG_INTERROMPIDA, 0))
    case FalhaInesperada(detalhe) => Failure(Api(PREFIXO_INESPERADO + detalhe, 0))
  }

  /** The two agree on every successful attempt and on every transport failure. */
  lemma ExecutarRequisicaoConcorda(envio: Envio, tentativa: nat)
    ensures ExecutarRequisicao(envio, tentativa).Success? <==> ExecutarRequisicaoCorrigida(envio, tentativa).Success?
    ensures !envio.Recebida? || ExecutarRequisicao(envio, tentativa).Success? ==>
              ExecutarRequisicao(envio, tentativa) == ExecutarRequisicaoCorrigida(envio, tentativa)
  {
  }

  /** The attempts against one URL, as written and as intended. */
  function TentativaComoEscrita(rede: (string, nat) -> Envio, url: string): nat -> Result<string> {
    (n: nat) => ExecutarRequisicao(rede(url, n), n)
  }

  function Tentativa(rede: (string, nat) -> Envio, url: string): nat -> Result<string> {
    (n: nat) => ExecutarRequisicaoCorrigida(rede(url, n), n)
  }

  // ---------------------------------------------------------------------
  // fazerRequisicao: the retry policy
  // ---------------------------------------------------------------------

  /** A failed attempt that fazerRequisicao retries, unless it was the last one. */
  predicate Retentavel(r: Result<string>) {
    r.Failure? && r.error.Api? && r.error.status >= 500
  }

  /**
   * The result of fazerRequisicao from attempt n on, paired with the number
   * of the attempt whose result it is.
   */
  function RequisicaoDesde(tentar: nat -> Result<string>, n: nat): (Result<string>, nat)
    requires 1 <= n <= MAX_RETRIES
    decreases MAX_RETRIES - n
  {
    var r := tentar(n);
    if n == MAX_RETRIES || !Retentavel(r) then (r, n) else RequisicaoDesde(tentar, n + 1)
  }

  function Requisicao(tentar: nat -> Result<string>): (Result<string>, nat) {
    RequisicaoDesde(tentar, 1)
  }

  /**
   * The policy: at most MAX_RETRIES attempts; the result is that of the
   * last attempt made; every earlier attempt failed with a status of 500 or
   * more; and stopping early means the last attempt succeeded or failed in
   * a way that is not retried.
   */
  lemma {:induction false} PoliticaDeRetentativa(tentar: nat -> Result<string>, n: nat)
    requires 1 <= n <= MAX_RETRIES
    ensures n <= RequisicaoDesde(tentar, n).1 <= MAX_RETRIES
    ensures RequisicaoDesde(tentar, n).0 == tentar(RequisicaoDesde(tentar, n).1)
    ensures forall j :: n <= j < RequisicaoDesde(tentar, n).1 ==> Retentavel(tentar(j))
    ensures RequisicaoDesde(tentar, n).1 < MAX_RETRIES ==> !Retentavel(RequisicaoDesde(tentar, n).0)
    decreases MAX_RETRIES - n
  {
    if n < MAX_RETRIES && Retentavel(tentar(n)) {
      PoliticaDeRetentativa(tentar, n + 1);
    }
  }

  /** The first success is returned: an attempt that succeeds is never followed by another. */
  lemma PrimeiroSucesso(tentar: nat -> Result<string>, k: nat)
    requires 1 <= k <= MAX_RETRIES && tentar(k).Success?
    requires forall j :: 1 <= j < k ==> Retentavel(tentar(j))
    ensures Requisicao(tentar) == (tentar(k), k)
  {
    PoliticaDeRetentativa(tentar, 1);
  }

  /** fazerRequisicao: the loop over attempts 1..MAX_RETRIES with early return and rethrow. */
  method FazerRequisicao(tentar: nat -> Result<string>) returns (r: Result<string>, tentativas: nat)
    ensures (r, tentativas) == Requisicao(tentar)
    ensures 1 <= tentativas <= MAX_RETRIES
  {
    PoliticaDeRetentativa(tentar, 1);
    tentativas := 1;
    while tentativas <= MAX_RETRIES
      invariant 1 <= tentativas <= MAX_RETRIES
      invariant RequisicaoDesde(tentar, tentativas) == Requisicao(tentar)
      decreases MAX_RETRIES - tentativas
    {
      r := tentar(tentativas);
      if r.Success? {
        return;
      }
      if tentativas == MAX_RETRIES || !Retentavel(r) {
        return;
      }
      tentativas := tentativas + 1;
    }
    assert false;
    r := Failure(Api(MSG_MAXIMO_TENTATIVAS, 0));
  }

  /** As written, every request ends after its first attempt, and every failure carries status 0. */
  lemma ComoEscritoNuncaRetenta(rede: (string, nat) -> Envio, url: string)
    ensures Requisicao(TentativaComoEscrita(rede, url)).1 == 1
    ensures Requisicao(TentativaComoEscrita(rede, url)).0.Failure? ==>
              Requisicao(TentativaComoEscrita(rede, url)).0.error.Api? && Requisicao(TentativaComoEscrita(rede, url)).0.error.status == 0
  {
    var tentar := TentativaComoEscrita(rede, url);
    assert tentar(1) == ExecutarRequisicao(rede(url, 1), 1);
  }

  /** A server that answers 503 once and then 200. */
  function ServidorInstavel(): (string, nat) -> Envio {
    (url: string, n: nat) =>
      if n == 1 then Recebida(RespostaHttp(503, None)) else Recebida(RespostaHttp(200, Some("{}")))
  }

  /**
   * Against that server the code as written gives up after one attempt with
   * status 0, where the intended policy retries and returns the body.
   */
  lemma ServidorInstavelExemplo(url: string)
    ensures Requisicao(TentativaComoEscrita(ServidorInstavel(), url)) ==
              (Failure(Api(PREFIXO_INESPERADO + MensagemStatus(503), 0)), 1)
    ensures Requisicao(Tentativa(ServidorInstavel(), url)) == (Success("{}"), 2)
  {
    assert Trim("{}") == "{}" by {
      TrimSemBordas("{}");
    }
    var servidor := ServidorInstavel();
    assert servidor(url, 1) == Recebida(RespostaHttp(503, None));
    assert servidor(url, 2) == Recebida(RespostaHttp(200, Some("{}")));
    var comoEscrita, corrigida := TentativaComoEscrita(servidor, url), Tentativa(servidor, url);
    assert comoEscrita(1) == Failure(Api(PREFIXO_INESPERADO + MensagemStatus(503), 0));
    assert corrigida(1) == Failure(Api(MensagemStatus(503), 503));
    assert corrigida(2) == Success("{}");
  }

  // ---------------------------------------------------------------------
  // Search URLs
  // ---------------------------------------------------------------------

  /** A blank (null, empty or all-whitespace) argument. */
  predicate EmBranco(s: Option<string>) {
    s.None? || Trim(s.value) == []
  }

  /**
   * The validation and URL of buscarLivrosPorTitulo: blank titles and
   * titles longer than 500 characters (before trimming) are refused.
   */
  function UrlBuscaPorTitulo(titulo: Option<string>, codificar: string -> string): (r: Result<string>)
    ensures EmBranco(titulo) ==> r == Failure(Validacao(MSG_TITULO_VAZIO))
    ensures !EmBranco(titulo) && |titulo.value| > TAMANHO_MAXIMO_TITULO ==> r == Failure(Validacao(MSG_TITULO_LONGO))
    ensures r.Success? <==> !EmBranco(titulo) && |titulo.value| <= TAMANHO_MAXIMO_TITULO
    ensures r.Success? ==> r.value == BASE_URL + "?search=" + codificar(Trim(titulo.value))
  {
    if EmBranco(titulo) then Failure(Validacao(MSG_TITULO_VAZIO))
    else if |titulo.value| > TAMANHO_MAXIMO_TITULO then Failure(Validacao(MSG_TITULO_LONGO))
    else Success(BASE_URL + "?search=" + codificar(Trim(titulo.value)))
  }

  /** Surrounding whitespace does not change the title search, within the length limit. */
  lemma UrlTituloIgnoraBordas(a: string, b: string, codificar: string -> string)
    requires Trim(a) == Trim(b) && |a| <= TAMANHO_MAXIMO_TITULO && |b| <= TAMANHO_MAXIMO_TITULO
    ensures UrlBuscaPorTitulo(Some(a), codificar) == UrlBuscaPorTitulo(Some(b), codificar)
  {
  }

  /** The validation and URL of buscarLivrosPorAutor: like the title search, without a length limit. */
  function UrlBuscaPorAutor(autor: Option<string>, codificar: string -> string): (r: Result<string>)
    ensures r.Failure? <==> EmBranco(autor)
    ensures r.Failure? ==> r.error == Validacao(MSG_AUTOR_VAZIO)
    ensures r.Success? ==> r.value == BASE_URL + "?search=" + codificar(Trim(autor.value))
  {
    if EmBranco(autor) then Failure(Validacao(MSG_AUTOR_VAZIO))
    else Success(BASE_URL + "?search=" + codificar(Trim(autor.value)))
  }

  /** The pattern ^[a-z]{2,3}$. */
  predicate CodigoIdiomaValido(c: string) {
    2 <= |c| <= 3 && forall i :: 0 <= i < |c| ==> 'a' <= c[i] <= 'z'
  }

  /**
   * The validation and URL of buscarLivrosPorIdioma: the trimmed,
   * lower-cased code must be two or three letters a-z.
   */
  function UrlBuscaPorIdioma(idioma: Option<string>): (r: Result<string>)
    ensures EmBranco(idioma) ==> r == Failure(Validacao(MSG_IDIOMA_VAZIO))
    ensures !EmBranco(idioma) && !CodigoIdiomaValido(ParaMinusculas(Trim(idioma.value))) ==>
              r == Failure(Validacao(MSG_IDIOMA_INVALIDO))
    ensures r.Success? <==> !EmBranco(idioma) && CodigoIdiomaValido(ParaMinusculas(Trim(idioma.value)))
    ensures r.Success? ==> r.value == BASE_URL + "?languages=" + ParaMinusculas(Trim(idioma.value))
  {
    if EmBranco(idioma) then Failure(Validacao(MSG_IDIOMA_VAZIO))
    else
      var limpo := ParaMinusculas(Trim(idioma.value));
      if !CodigoIdiomaValido(limpo) then Failure(Validacao(MSG_IDIOMA_INVALIDO))
      else Success(BASE_URL + "?languages=" + limpo)
  }

  /** Codes that differ only in case ("PT" and "pt") give the same outcome and the same URL. */
  lemma {:induction false} UrlIdiomaIgnoraCaixa(a: string, b: string)
    requires IgualIgnorandoCaixa(a, b)
    ensures UrlBuscaPorIdioma(Some(a)) == UrlBuscaPorIdioma(Some(b))
  {
    IgualIgnorandoCaixaSse(a, b);
    MinusculasDoTrim(a);
    MinusculasDoTrim(b);
    assert |Trim(a)| == |ParaMinusculas(Trim(a))| == |ParaMinusculas(Trim(b))| == |Trim(b)|;
  }

  /** An accepted language URL carries nothing but the base, the parameter name and 2-3 lower-case letters. */
  lemma UrlIdiomaSoLetras(idioma: Option<string>)
    requires UrlBuscaPorIdioma(idioma).Success?
    ensures var u := UrlBuscaPorIdioma(idioma).value;
            |BASE_URL + "?languages="| + 2 <= |u| <= |BASE_URL + "?languages="| + 3
            && forall i :: |BASE_URL + "?languages="| <= i < |u| ==> 'a' <= u[i] <= 'z'
  {
  }

  // ---------------------------------------------------------------------
  // The public searches
  // ---------------------------------------------------------------------

  /**
   * Validation first: an invalid argument fails with no attempt; otherwise
   * fazerRequisicao over executarRequisicao as written. Because every
   * failed attempt reaches the retry test with status 0, the request ends
   * after its first attempt, with that attempt's result.
   */
  method Buscar(url: Result<string>, rede: (string, nat) -> Envio) returns (r: Result<string>, tentativas: nat)
    ensures url.Failure? ==> r == url && tentativas == 0
    ensures url.Success? ==> (r, tentativas) == Requisicao(TentativaComoEscrita(rede, url.value))
    ensures url.Success? ==> tentativas == 1 && r == ExecutarRequisicao(rede(url.value, 1), 1)
    ensures url.Success? && r.Failure? ==> r.error.Api? && r.error.status == 0
  {
    if url.Failure? {
      return url, 0;
    }
    ComoEscritoNuncaRetenta(rede, url.value);
    PoliticaDeRetentativa(TentativaComoEscrita(rede, url.value), 1);
    r, tentativas := FazerRequisicao(TentativaComoEscrita(rede, url.value));
  }

  /**
   * The search as intended: HTTP errors keep their status and a status of
   * 500 or more is retried, up to MAX_RETRIES attempts in all.
   */
  method BuscarCorrigido(url: Result<string>, rede: (string, nat) -> Envio) returns (r: Result<string>, tentativas: nat)
    ensures url.Failure? ==> r == url && tentativas == 0
    ensures url.Success? ==> (r, tentativas) == Requisicao(Tentativa(rede, url.value))
    ensures url.Success? ==> 1 <= tentativas <= MAX_RETRIES && r == Tentativa(rede, url.value)(tentativas)
  {
    if url.Failure? {
      return url, 0;
    }
    PoliticaDeRetentativa(Tentativa(rede, url.value), 1);
    r, tentativas := FazerRequisicao(Tentativa(rede, url.value));
  }

  /** buscarLivrosPorTitulo */
  method BuscarLivrosPorTitulo(titulo: Option<string>, codificar: string -> string, rede: (string, nat) -> Envio)
    returns (r: Result<string>, tentativas: nat)
    ensures UrlBuscaPorTitulo(titulo, codificar).Failure? ==>
              r == UrlBuscaPorTitulo(titulo, codificar) && tentativas == 0
    ensures UrlBuscaPorTitulo(titulo, codificar).Success? ==>
              (r, tentativas) == Requisicao(TentativaComoEscrita(rede, UrlBuscaPorTitulo(titulo, codificar).value))
              && tentativas == 1
  {
    r, tentativas := Buscar(UrlBuscaPorTitulo(titulo, codificar), rede);
  }

  /** buscarLivrosPorAutor */
  method BuscarLivrosPorAutor(autor: Option<string>, codificar: string -> string, rede: (string, nat) -> Envio)
    returns (r: Result<string>, tentativas: nat)
    ensures UrlBuscaPorAutor(autor, codificar).Failure? ==>
              r == UrlBuscaPorAutor(autor, codificar) && tentativas == 0
    ensures UrlBuscaPorAutor(autor, codificar).Success? ==>
              (r, tentativas) == Requisicao(TentativaComoEscrita(rede, UrlBuscaPorAutor(autor, codificar).value))
              && tentativas == 1
  {
    r, tentativas := Buscar(UrlBuscaPorAutor(autor, codificar), rede);
  }

  /** buscarLivrosPorIdioma */
  method BuscarLivrosPorIdioma(idioma: Option<string>, rede: (string, nat) -> Envio)
    returns (r: Result<string>, tentativas: nat)
    ensures UrlBuscaPorIdioma(idioma).Failure? ==> r == UrlBuscaPorIdioma(idioma) && tentativas == 0
    ensures UrlBuscaPorIdioma(idioma).Success? ==>
              (r, tentativas) == Requisicao(TentativaComoEscrita(rede, UrlBuscaPorIdioma(idioma).value))
              && tentativas == 1
  {
    r, tentativas := Buscar(UrlBuscaPorIdioma(idioma), rede);
  }
}
