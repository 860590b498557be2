/**
 * The author table and its read-only queries. A query is a function of
 * the stored rows: a filter (WHERE), a first match (a finder returning an
 * Optional), an ORDER BY, or an existence test.
 */
module AutorRepositorio {
  import opened Comum
  import opened Texto
  import opened Colecoes
  import Modelo

  /** A stored author: its generated key, its name and its years of life. */
  datatype AutorRegistro = AutorRegistro(
    id: nat,
    nome: string,
    anoNascimento: Option<int>,
    anoFalecimento: Option<int>)

  /** findByNome: an author whose name is exactly nome. */
  function FindByNome(t: seq<AutorRegistro>, nome: string): (r: Option<AutorRegistro>)
    ensures r.Some? ==> r.value in t && r.value.nome == nome
    ensures r.None? <==> forall i :: 0 <= i < |t| ==> t[i].nome != nome
  {
    Primeiro(t, (a: AutorRegistro) => a.nome == nome)
  }

  /** findByNomeIgnoreCase: an author whose name equals nome ignoring case. */
  function FindByNomeIgnoreCase(t: seq<AutorRegistro>, nome: string): (r: Option<AutorRegistro>)
    ensures r.Some? ==> r.value in t && IgualIgnorandoCaixa(r.value.nome, nome)
    ensures r.None? <==> forall i :: 0 <= i < |t| ==> !IgualIgnorandoCaixa(t[i].nome, nome)
  {
    Primeiro(t, (a: AutorRegistro) => IgualIgnorandoCaixa(a.nome, nome))
  }

  /** A case-insensitive lookup finds whatever an exact lookup finds. */
  lemma ExatoImplicaIgnorandoCaixa(t: seq<AutorRegistro>, nome: string)
    ensures FindByNome(t, nome).Some? ==> FindByNomeIgnoreCase(t, nome).Some?
  {
    if FindByNome(t, nome).Some? {
      var a := FindByNome(t, nome).value;
      IgualIgnorandoCaixaReflexiva(nome);
      var i :| 0 <= i < |t| && t[i] == a;
      assert IgualIgnorandoCaixa(t[i].nome, nome);
    }
  }

  /** findByNomeContainingIgnoreCase: the authors whose name contains trecho, ignoring case. */
  function FindByNomeContainingIgnoreCase(t: seq<AutorRegistro>, trecho: string): (r: seq<AutorRegistro>)
    ensures forall i :: 0 <= i < |r| ==>
              r[i] in t && ContemTrecho(ParaMinusculas(r[i].nome), ParaMinusculas(trecho))
    ensures forall i :: 0 <= i < |t| && ContemTrecho(ParaMinusculas(t[i].nome), ParaMinusculas(trecho)) ==>
              t[i] in r
  {
    Filtrar(t, (a: AutorRegistro) => ContemTrecho(ParaMinusculas(a.nome), ParaMinusculas(trecho)))
  }

  /** Searching for a whole stored name, in any case, finds that author. */
  lemma {:induction false} NomeInteiroEncontrado(t: seq<AutorRegistro>, k: int, trecho: string)
    requires 0 <= k < |t| && IgualIgnorandoCaixa(t[k].nome, trecho)
    ensures t[k] in FindByNomeContainingIgnoreCase(t, trecho)
  {
    IgualIgnorandoCaixaSse(t[k].nome, trecho);
    var m := ParaMinusculas(t[k].nome);
    ContemTrechoSse(m, m);
    assert m[0..|m|] == m;
  }

  /**
   * findAutoresVivosNoAno: birth unknown or not after ano, and death
   * unknown or not before ano.
   */
  function FindAutoresVivosNoAno(t: seq<AutorRegistro>, ano: int): (r: seq<AutorRegistro>)
    ensures forall i :: 0 <= i < |r| ==> r[i] in t
    ensures forall i :: 0 <= i < |r| ==>
              (r[i].anoNascimento.None? || r[i].anoNascimento.value <= ano)
              && (r[i].anoFalecimento.None? || r[i].anoFalecimento.value >= ano)
    ensures forall i :: 0 <= i < |t| && Modelo.VivoEm(t[i].anoNascimento, t[i].anoFalecimento, ano) ==>
              t[i] in r
  {
    Filtrar(t, (a: AutorRegistro) => Modelo.VivoEm(a.anoNascimento, a.anoFalecimento, ano))
  }

  /**
   * For a year that estaVivo accepts, the query lists a stored author
   * exactly when the author object with the same years says it is alive.
   */
  lemma VivosConcordaComEstaVivo(t: seq<AutorRegistro>, k: int, autor: Modelo.Autor, ano: int)
    requires 0 <= k < |t|
    requires autor.anoNascimento == t[k].anoNascimento && autor.anoFalecimento == t[k].anoFalecimento
    requires Modelo.ANO_MINIMO <= ano <= Modelo.ANO_MAXIMO
    ensures autor.EstaVivo(ano).Success?
    ensures t[k] in FindAutoresVivosNoAno(t, ano) <==> autor.EstaVivo(ano).value
  {
    var r := FindAutoresVivosNoAno(t, ano);
    if t[k] in r {
      var i :| 0 <= i < |r| && r[i] == t[k];
    }
  }

  /** findByAnoNascimentoBetween: a known birth year within [inicio, fim]. */
  function FindByAnoNascimentoBetween(t: seq<AutorRegistro>, inicio: int, fim: int): (r: seq<AutorRegistro>)
    ensures forall i :: 0 <= i < |r| ==>
              r[i] in t && r[i].anoNascimento.Some? && inicio <= r[i].anoNascimento.value <= fim
    ensures forall i :: 0 <= i < |t| && t[i].anoNascimento.Some? && inicio <= t[i].anoNascimento.value <= fim ==>
              t[i] in r
    ensures inicio > fim ==> r == []
  {
    var r := Filtrar(t, (a: AutorRegistro) => a.anoNascimento.Some? && inicio <= a.anoNascimento.value <= fim);
    assert r != [] ==> inicio <= r[0].anoNascimento.value <= fim;
    r
  }

  /** The ORDER BY nome ASC relation on rows. */
  predicate NomeAntes(a: AutorRegistro, b: AutorRegistro) {
    MenorOuIgual(a.nome, b.nome)
  }

  lemma NomeAntesOrdemTotal()
    ensures Total(NomeAntes) && Transitiva(NomeAntes)
  {
    forall a: AutorRegistro, b: AutorRegistro
      ensures NomeAntes(a, b) || NomeAntes(b, a)
    {
      MenorOuIgualTotal(a.nome, b.nome);
    }
    forall a: AutorRegistro, b: AutorRegistro, c: AutorRegistro | NomeAntes(a, b) && NomeAntes(b, c)
      ensures NomeAntes(a, c)
    {
      MenorOuIgualTransitiva(a.nome, b.nome, c.nome);
    }
  }

  /** findAllByOrderByNomeAsc: every stored author once, ascending by name. */
  function FindAllByOrderByNomeAsc(t: seq<AutorRegistro>): (r: seq<AutorRegistro>)
    ensures multiset(r) == multiset(t)
    ensures forall i, j :: 0 <= i < j < |r| ==> MenorOuIgual(r[i].nome, r[j].nome)
  {
    NomeAntesOrdemTotal();
    Ordenar(t, NomeAntes)
  }

  /** existsByNome: some stored name is exactly nome; the exact finder agrees. */
  predicate ExistsByNome(t: seq<AutorRegistro>, nome: string) {
    exists i :: 0 <= i < |t| && t[i].nome == nome
  }

  lemma ExistsByNomeSseFindByNome(t: seq<AutorRegistro>, nome: string)
    ensures ExistsByNome(t, nome) <==> FindByNome(t, nome).Some?
  {
  }
}
