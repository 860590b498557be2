# LiterAlura catalogue core in Dafny

LiterAlura is a console catalogue of Project Gutenberg books. It searches
the Gutendex API by title. It stores the first book found, together with
its first author, in two tables (authors and books). It then answers queries
over those tables.

This project models the domain and ingestion core of that program and proves
properties of the model:

- **`Modelo`** (`modelo.dfy`) — the two entities as classes:
  - `Autor` validates its years of life, answers "alive in year" and "age in
    year", compares names ignoring case, and keeps its book list in place with
    a back-reference;
  - `Livro` is identified by its id, names its language, and truncates its
    display columns.
- **`Dto`** (`dto.dfy`) — the decoded API response records and their null-safe
  head-of-list accessors.
- **`AutorRepositorio`, `LivroRepositorio`** (`autor_repositorio.dfy`,
  `livro_repositorio.dfy`) — the repository queries, as functions over an
  in-memory author table and book table. Books are keyed by their Gutendex id.
- **`Api`** (`api_service.dfy`) — the HTTP request policy without the network:
  - how a response maps to a body or an error;
  - the retry loop;
  - validation and URL construction of the three searches.
- **`Servico`** (`literalura_service.dfy`) — the title-search flow:
  - search, then dedupe by id;
  - confirm on "s"/"sim";
  - resolve or create the author, then save the book;
  - the input guards of the listing and statistics operations.

  The class `Literalura` holds the two tables.
- **`Comum`, `Texto`, `Colecoes`** — the Java library behaviour the core relies
  on:
  - error and option types;
  - `String.trim`, ASCII `toLowerCase`/`equalsIgnoreCase`, `Integer.parseInt`,
    `Integer.toString` and `String.hashCode`;
  - filter, count, first match, sort, distinct and take over sequences.

What is outside the program becomes a parameter:

- the network: `rede`, a function of the URL and the attempt number that says
  what `HttpClient.send` produced;
- URL encoding: `codificar`;
- JSON decoding: `decodificar`;
- console input: the lines the user typed.

Source paths below are relative to the repository root. `model/…`, `dto/…`,
`repository/…` and `service/…` are under
`src/main/java/com/literalura/literalura/`.

## Model

| member | source | states |
|---|---|---|
| Modelo.Autor.constructor | src/main/java/com/literalura/literalura/model/Autor.java:38 | the no-argument constructor leaves name and years null and the book list empty |
| Modelo.Autor.Criar | src/main/java/com/literalura/literalura/model/Autor.java:40-54 | construction fails exactly when both years are known and birth is after death, with the validation message; otherwise the fields are stored verbatim and the list is empty |
| Modelo.Autor.ValidacaoAnosVida | src/main/java/com/literalura/literalura/model/Autor.java:47-54 | validation fails exactly when both years are present and birth > death |
| Modelo.Autor.SetNome | src/main/java/com/literalura/literalura/model/Autor.java:65-67 | the stored name is the trimmed argument, or null |
| Modelo.Autor.SetAnoNascimento | src/main/java/com/literalura/literalura/model/Autor.java:73-76 | the new birth year is stored even when the check then fails; it fails exactly when the new pair is invalid |
| Modelo.Autor.SetAnoFalecimento | src/main/java/com/literalura/literalura/model/Autor.java:82-85 | the same for the death year |
| Modelo.Autor.GetLivros | src/main/java/com/literalura/literalura/model/Autor.java:87-89 | returns the list's contents; as a value it cannot alias the author's list |
| Modelo.Autor.SetLivros | src/main/java/com/literalura/literalura/model/Autor.java:91-96 | null empties the list; any other argument becomes the contents |
| Modelo.Autor.AdicionarLivro | src/main/java/com/literalura/literalura/model/Autor.java:99-107 | null is refused with the message; a book with the id of one already listed changes nothing; any other book is appended and its author set to this author; distinct ids stay distinct; the book's other fields are unchanged |
| Modelo.Autor.RemoverLivro | src/main/java/com/literalura/literalura/model/Autor.java:109-113 | the first listed book with the same id is removed and the argument's author cleared; when none is listed nothing changes |
| Modelo.RemocaoEliminaIgual | src/main/java/com/literalura/literalura/model/Autor.java:109-113 | after removal from a list with distinct ids no book with that id remains, and ids stay distinct |
| Modelo.Autor.EstaVivo | src/main/java/com/literalura/literalura/model/Autor.java:120-128 | years outside 1..3000 fail with the message; otherwise alive iff (birth unknown or ≤ year) and (death unknown or ≥ year) |
| Modelo.VivoEmIntervalo | src/main/java/com/literalura/literalura/model/Autor.java:125-127 | the years in which an author is alive form an interval |
| Modelo.Autor.IdadeEm | src/main/java/com/literalura/literalura/model/Autor.java:135-139 | as written: null iff birth unknown or year after death; otherwise between 0 and the largest int, year − birth while that fits in an int, 0 before birth while the difference fits in an int, year − birth + 2^32 for a difference just below the int range, 0 for one just above it, and any other positive answer is year − birth wrapped modulo 2^32 |
| Modelo.Autor.IdadeEmCorrigida | src/main/java/com/literalura/literalura/model/Autor.java:130-139 | as documented: an age exactly in the years the author is known to be alive, equal to year − birth |
| Modelo.IdadeAntesDoNascimento | src/test/java/com/literalura/literalura/LiteraluraTests.java:71 | for a year before birth the code answers 0 where null is intended |
| Modelo.IdadeEmConcordaAposNascimento | src/main/java/com/literalura/literalura/model/Autor.java:135-139 | the written and the intended age agree from the birth year on, while the age fits in an int |
| Modelo.IdadeEmTransbordo | src/main/java/com/literalura/literalura/model/Autor.java:138 | born in year -1, the age in the largest int year wraps negative and is answered as 0; born in 1000, the age in year -2147483000 wraps to 2147483296 |
| Modelo.Autor.IsVivo | src/main/java/com/literalura/literalura/model/Autor.java:144-146 | true iff no death year, and then the author is alive in every year from birth on |
| Modelo.Autor.HashCode | src/main/java/com/literalura/literalura/model/Autor.java:165-168 | a 32-bit value, 0 for a null name |
| Modelo.AutorIgualSse | src/main/java/com/literalura/literalura/model/Autor.java:157-163 | two authors are equal iff their names lower-case alike or both are null |
| Modelo.AutorIgualMesmoHash | src/main/java/com/literalura/literalura/model/Autor.java:157-168 | equal authors have equal hash codes |
| Modelo.AutorIgualEquivalencia | src/main/java/com/literalura/literalura/model/Autor.java:157-163 | author equality is reflexive, symmetric and transitive |
| Modelo.Autor.Igual | src/main/java/com/literalura/literalura/model/Autor.java:157-163 | equals: the same object, both names null, or names that lower-case alike |
| Modelo.Livro.constructor | src/main/java/com/literalura/literalura/model/Livro.java:32-38 | the five fields are stored verbatim |
| Modelo.Livro.Vazio | src/main/java/com/literalura/literalura/model/Livro.java:29 | new Livro(): every field null |
| Modelo.Livro.SetId | src/main/java/com/literalura/literalura/model/Livro.java:45-47 | assigns the id, null included, and nothing else |
| Modelo.Livro.SetTitulo | src/main/java/com/literalura/literalura/model/Livro.java:53-55 | assigns the title, null included, and nothing else |
| Modelo.Livro.SetIdioma | src/main/java/com/literalura/literalura/model/Livro.java:61-63 | assigns the language code and nothing else |
| Modelo.Livro.SetNumeroDownloads | src/main/java/com/literalura/literalura/model/Livro.java:69-71 | assigns the download count and nothing else |
| Modelo.Livro.SetAutor | src/main/java/com/literalura/literalura/model/Livro.java:77-79 | assigns the back-reference and nothing else |
| Modelo.NomeDoIdioma | src/main/java/com/literalura/literalura/model/Livro.java:85-99 | the ten listed codes, after lower-casing, map to their names; any other code maps to its upper-case form; null maps to "Desconhecido" |
| Modelo.NomeDoIdiomaIgnoraCaixa | src/main/java/com/literalura/literalura/model/Livro.java:86 | codes that are equal ignoring case ("PT", "pt") get the same name |
| Modelo.Truncar | src/main/java/com/literalura/literalura/model/Livro.java:104-106 | a text longer than the width becomes its first width − 3 characters plus "...", exactly the width long; shorter texts are unchanged |
| Modelo.Livro.Exibicao | src/main/java/com/literalura/literalura/model/Livro.java:101-109 | NullPointerException iff the title is null or a linked author's name is null; otherwise the title cut to 50 and the author name cut to 30, "Autor desconhecido" for no author, the language name, and 0 for null downloads |
| Modelo.Livro.HashCode | src/main/java/com/literalura/literalura/model/Livro.java:119-122 | a 32-bit value, 0 for a null id |
| Modelo.LivroIgualSse | src/main/java/com/literalura/literalura/model/Livro.java:111-122 | two books are equal iff their ids are equal (two nulls included), and equal books hash alike |
| Dto.LivroDto.PrimeiroAutor | src/main/java/com/literalura/literalura/dto/LivroDTO.java:23-25 | null iff the authors list is null or empty, else its element 0 |
| Dto.LivroDto.PrimeiroIdioma | src/main/java/com/literalura/literalura/dto/LivroDTO.java:30-32 | null iff the languages list is null or empty, else its element 0 |
| Dto.LivroDto.Resumo | src/main/java/com/literalura/literalura/dto/LivroDTO.java:37-46 | keeps the id and the possibly null title, and shows "Autor desconhecido", "Idioma desconhecido" and 0 for the missing first author, first language and downloads |
| Dto.GutendexResponseDto.PrimeiroLivro | src/main/java/com/literalura/literalura/dto/GutendexResponseDTO.java:22-31 | null iff there are no results (null or empty list), else element 0 |
| Dto.GutendexResponseDto.Resumo | src/main/java/com/literalura/literalura/dto/GutendexResponseDTO.java:37-41 | reports 0 for a null total and for a null results list; the page size is positive iff there are results |
| Dto.RespostaDomCasmurro | src/test/java/com/literalura/literalura/LiteraluraTests.java:128-167 | the fixture has total 1, results, id 55752, title "Dom Casmurro", first language "pt", 1234 downloads and first author "Machado de Assis" |
| AutorRepositorio.FindByNome | src/main/java/com/literalura/literalura/repository/AutorRepository.java:23 | the author found has exactly that name; nothing is found iff no stored name is exactly that |
| AutorRepositorio.FindByNomeIgnoreCase | src/main/java/com/literalura/literalura/repository/AutorRepository.java:30 | the same, ignoring case |
| AutorRepositorio.ExatoImplicaIgnorandoCaixa | src/main/java/com/literalura/literalura/repository/AutorRepository.java:23-30 | whatever the exact lookup finds, the case-insensitive lookup finds something too |
| AutorRepositorio.FindByNomeContainingIgnoreCase | src/main/java/com/literalura/literalura/repository/AutorRepository.java:37 | exactly the stored authors whose lower-cased name contains the lower-cased fragment |
| AutorRepositorio.NomeInteiroEncontrado | src/main/java/com/literalura/literalura/repository/AutorRepository.java:37 | searching for a whole stored name, in any case, finds that author |
| AutorRepositorio.FindAutoresVivosNoAno | src/main/java/com/literalura/literalura/repository/AutorRepository.java:47-50 | exactly the stored authors with birth unknown or ≤ year and death unknown or ≥ year |
| AutorRepositorio.VivosConcordaComEstaVivo | src/main/java/com/literalura/literalura/repository/AutorRepository.java:47-50 | for years 1..3000 the query lists an author iff estaVivo holds for the same years |
| AutorRepositorio.FindByAnoNascimentoBetween | src/main/java/com/literalura/literalura/repository/AutorRepository.java:72 | exactly the authors with a known birth year in [start, end]; none when start > end |
| AutorRepositorio.NomeAntesOrdemTotal | src/main/java/com/literalura/literalura/repository/AutorRepository.java:78 | ordering by name is total and transitive |
| AutorRepositorio.FindAllByOrderByNomeAsc | src/main/java/com/literalura/literalura/repository/AutorRepository.java:78 | a permutation of the stored authors, ascending by name |
| AutorRepositorio.ExistsByNomeSseFindByNome | src/main/java/com/literalura/literalura/repository/AutorRepository.java:23-85 | existsByNome holds iff findByNome finds an author |
| LivroRepositorio.FindByIdioma | src/main/java/com/literalura/literalura/repository/LivroRepository.java:37 | exactly the stored books whose code is the argument |
| LivroRepositorio.FindByIdiomaIgnoreCase | src/main/java/com/literalura/literalura/repository/LivroRepository.java:44 | exactly the stored books whose code equals the argument ignoring case |
| LivroRepositorio.IdiomaExatoContidoNoIgnorandoCaixa | src/main/java/com/literalura/literalura/repository/LivroRepository.java:37-44 | the case-insensitive lookup finds every book the exact lookup finds |
| LivroRepositorio.CountByIdioma | src/main/java/com/literalura/literalura/repository/LivroRepository.java:92 | equals the length of findByIdioma, at most the table size |
| LivroRepositorio.TituloAntesOrdemTotal | src/main/java/com/literalura/literalura/repository/LivroRepository.java:77 | ordering by title is total and transitive |
| LivroRepositorio.FindAllByOrderByTituloAsc | src/main/java/com/literalura/literalura/repository/LivroRepository.java:77 | a permutation of the stored books, ascending by title |
| LivroRepositorio.MaisBaixadoOrdemTotal | src/main/java/com/literalura/literalura/repository/LivroRepository.java:84 | ordering by downloads (descending, unknown last) is total and transitive |
| LivroRepositorio.FindTopLivrosMaisBaixados | src/main/java/com/literalura/literalura/repository/LivroRepository.java:84-85 | min(limit, size) stored books, in non-increasing download order, and every book left out ranks no higher than each one taken |
| LivroRepositorio.TopoOrdenado | src/main/java/com/literalura/literalura/repository/LivroRepository.java:84-85 | in a sorted list, everything after position n ranks no higher than everything before it |
| LivroRepositorio.Idiomas | src/main/java/com/literalura/literalura/repository/LivroRepository.java:112 | the non-null codes: each occurs on some book and every stored code is among them |
| LivroRepositorio.MenorOuIgualOrdem | src/main/java/com/literalura/literalura/repository/LivroRepository.java:112 | ORDER BY on strings is a total order |
| LivroRepositorio.FindIdiomasDistintos | src/main/java/com/literalura/literalura/repository/LivroRepository.java:112-113 | strictly ascending, hence duplicate-free, codes; each is stored on some book and every stored non-null code is included |
| LivroRepositorio.FindByNumeroDownloadsGreaterThan | src/main/java/com/literalura/literalura/repository/LivroRepository.java:99 | exactly the books with a known count strictly above the minimum |
| LivroRepositorio.PosicaoDoId | src/main/java/com/literalura/literalura/repository/LivroRepository.java:106 | the position of a book with that id, negative iff existsById is false |
| LivroRepositorio.ExistsById | src/main/java/com/literalura/literalura/service/LiteraluraService.java:71-72 | existsById holds iff the id is among the stored ids |
| LivroRepositorio.Salvar | src/main/java/com/literalura/literalura/service/LiteraluraService.java:274 | save by primary key: a stored id is replaced in place, a new one appended; afterwards the id is stored with that row, other rows stay, the stored ids are the old ones plus this one, and unique ids stay unique |
| Api.MensagemStatus | src/main/java/com/literalura/literalura/service/ApiService.java:115-126 | each of the nine listed statuses (400, 401, 403, 404, 429, 500, 502, 503, 504) gets its own fixed message, each stated in the contract, and every other status gets "Erro HTTP " plus the code |
| Api.MensagemStatusGenerica | src/main/java/com/literalura/literalura/service/ApiService.java:125 | for a status outside the table the code can be read back from the message |
| Api.ProcessarResposta | src/main/java/com/literalura/literalura/service/ApiService.java:100-130 | success iff 2xx with a non-blank body, which is returned verbatim; every failure carries the response's own status, with "Resposta vazia da API" for 2xx or the table message otherwise |
| Api.ExecutarRequisicao | src/main/java/com/literalura/literalura/service/ApiService.java:66-98 | as written: every failure, HTTP ones included, carries status 0; HTTP error messages get the "Erro inesperado: " prefix |
| Api.ExecutarRequisicaoCorrigida | src/main/java/com/literalura/literalura/service/ApiService.java:85-93 | as intended: a received response gives processarResposta's result unchanged; only transport failures carry status 0 |
| Api.ExecutarRequisicaoConcorda | src/main/java/com/literalura/literalura/service/ApiService.java:66-98 | the two versions agree on success and on every transport failure |
| Api.PoliticaDeRetentativa | src/main/java/com/literalura/literalura/service/ApiService.java:45-63 | at most 3 attempts; the result is that of the last attempt made; every earlier attempt failed with status ≥ 500; stopping before the third means the last result is not retried |
| Api.PrimeiroSucesso | src/main/java/com/literalura/literalura/service/ApiService.java:45-50 | the first successful attempt after retried failures is the result |
| Api.FazerRequisicao | src/main/java/com/literalura/literalura/service/ApiService.java:42-64 | the loop returns what the retry policy specifies, after 1 to 3 attempts |
| Api.ComoEscritoNuncaRetenta | src/main/java/com/literalura/literalura/service/ApiService.java:49 | with the attempt as written, every request ends after one attempt and every failure has status 0 |
| Api.ServidorInstavelExemplo | src/main/java/com/literalura/literalura/service/ApiService.java:45-59 | a server answering 503 then 200: as written the request fails after one attempt; as intended it returns the body after two |
| Api.UrlBuscaPorTitulo | src/main/java/com/literalura/literalura/service/ApiService.java:135-146 | blank titles and titles longer than 500 before trimming are refused; otherwise BASE_URL + "?search=" + encode(trimmed title) |
| Api.UrlTituloIgnoraBordas | src/main/java/com/literalura/literalura/service/ApiService.java:144-146 | titles with the same trimmed text, within the limit, give the same URL |
| Api.UrlBuscaPorAutor | src/main/java/com/literalura/literalura/service/ApiService.java:155-162 | only blank names are refused; otherwise the search URL of the trimmed, encoded name |
| Api.UrlBuscaPorIdioma | src/main/java/com/literalura/literalura/service/ApiService.java:171-183 | blank codes and codes that are not 2–3 letters a–z after trim and lower-case are refused; otherwise BASE_URL + "?languages=" + code |
| Api.UrlIdiomaIgnoraCaixa | src/main/java/com/literalura/literalura/service/ApiService.java:176 | codes equal ignoring case give the same outcome and URL |
| Api.UrlIdiomaSoLetras | src/main/java/com/literalura/literalura/service/ApiService.java:179-183 | an accepted language URL ends in two or three lower-case letters |
| Api.Buscar | src/main/java/com/literalura/literalura/service/ApiService.java:42-98 | an invalid argument fails with no attempt; otherwise the request as written: exactly one attempt, whose result is returned, and any failure carries status 0 |
| Api.BuscarCorrigido | src/main/java/com/literalura/literalura/service/ApiService.java:42-93 | as intended: an invalid argument fails with no attempt; otherwise the retry policy over the corrected attempt, 1 to 3 attempts, returning the last attempt's result |
| Api.BuscarLivrosPorTitulo | src/main/java/com/literalura/literalura/service/ApiService.java:135-150 | a refused title fails with no attempt; otherwise the request as written on the title URL, after exactly one attempt |
| Api.BuscarLivrosPorAutor | src/main/java/com/literalura/literalura/service/ApiService.java:155-166 | a blank name fails with no attempt; otherwise the request as written on the author URL, after exactly one attempt |
| Api.BuscarLivrosPorIdioma | src/main/java/com/literalura/literalura/service/ApiService.java:171-187 | a refused code fails with no attempt; otherwise the request as written on the language URL, after exactly one attempt |
| Servico.ResolverAutor | src/main/java/com/literalura/literalura/service/LiteraluraService.java:255-263 | an author equal ignoring case is reused unchanged; otherwise invalid years fail, and valid ones add exactly one author with the DTO's name and years under the next key |
| Servico.ResolverAutorEncontra | src/main/java/com/literalura/literalura/service/LiteraluraService.java:255-263 | the resolved key belongs to a stored author whose name matches the DTO's ignoring case; books are untouched |
| Servico.SalvarNoBanco | src/main/java/com/literalura/literalura/service/LiteraluraService.java:248-275 | no first author fails before any write; books change only on success; success iff there is a first author, the author resolves, and the id and title are present; a missing id or a null title fails after the author was written; on success the book row is saved under the resolved author |
| Servico.SalvarNoBancoLigaAutor | src/main/java/com/literalura/literalura/service/LiteraluraService.java:266-274 | after a save the book table holds the DTO's id, title, first language and downloads, linked to a stored author whose name matches the first author ignoring case |
| Servico.ResolverAutorPreservaValido | src/main/java/com/literalura/literalura/service/LiteraluraService.java:255-263 | resolving keeps the store's rules: distinct keys, names distinct ignoring case, valid years |
| Servico.AcrescentarAutorPreservaValido | src/main/java/com/literalura/literalura/service/LiteraluraService.java:260-263 | appending a new author with the next key, valid years and a name unlike every stored one keeps the store's rules |
| Servico.LigarLivroPreservaValido | src/main/java/com/literalura/literalura/service/LiteraluraService.java:266-274 | saving a row whose author is stored keeps unique ids and stored authors |
| Servico.SalvarNoBancoPreservaValido | src/main/java/com/literalura/literalura/service/LiteraluraService.java:248-275 | every save keeps every rule of the store |
| Servico.AutorExistenteReutilizado | src/main/java/com/literalura/literalura/service/LiteraluraService.java:255-259 | first write wins: an author with a name equal ignoring case adds no author and receives the book |
| Servico.Confirmado | src/main/java/com/literalura/literalura/service/LiteraluraService.java:77-80 | the reply confirms iff, trimmed, it equals "s" or "sim" ignoring case |
| Servico.ConfirmadoIgnoraCaixa | src/main/java/com/literalura/literalura/service/LiteraluraService.java:78-80 | the confirmation does not depend on case or surrounding blanks |
| Servico.RespostaDaBusca | src/main/java/com/literalura/literalura/service/LiteraluraService.java:53-57 | a refused title fails with its validation error and no attempt; a valid one makes exactly one attempt as written; a failure is the conversion error or an API error with status 0; a success is the decoding of the first attempt's body |
| Servico.Busca | src/main/java/com/literalura/literalura/service/LiteraluraService.java:44-90 | a blank title, a failed search and an empty result each end with that outcome and no change; every outcome carrying a book carries the first result; a stored id ends as already stored with no write; an unconfirmed reply saves nothing; a confirmed one gives the save's outcome and store; a saved book was not stored before and is stored after |
| Servico.BuscaRepetidaJaCadastrada | src/main/java/com/literalura/literalura/service/LiteraluraService.java:71-75 | repeating a search that saved a book finds it already stored and changes nothing |
| Servico.BuscaDomCasmurro | src/main/java/com/literalura/literalura/service/LiteraluraService.java:44-85 | the fixture answered " S " on an empty store saves Dom Casmurro under a new author Machado de Assis with key 1 |
| Servico.Literalura.constructor | src/main/java/com/literalura/literalura/service/LiteraluraService.java:24-38 | an empty, valid catalogue |
| Servico.Literalura.ResolverAutorNoBanco | src/main/java/com/literalura/literalura/service/LiteraluraService.java:255-263 | the lookup-or-create of the author, as specified by ResolverAutor; books untouched |
| Servico.Literalura.SalvarLivroNoBanco | src/main/java/com/literalura/literalura/service/LiteraluraService.java:248-275 | the new tables and outcome are those of SalvarNoBanco, and the store's rules are kept |
| Servico.Literalura.BuscarLivrosPorTitulo | src/main/java/com/literalura/literalura/service/LiteraluraService.java:44-90 | a blank title makes no attempt; the outcome and new tables are those of Busca on the API's answer; the store's rules are kept |
| Servico.Literalura.ListarAutoresVivosEmAno | src/main/java/com/literalura/literalura/service/LiteraluraService.java:158-185 | a line parseInt rejects fails with the message and no query; otherwise the alive-in-year query |
| Servico.Literalura.ListarLivrosPorIdioma | src/main/java/com/literalura/literalura/service/LiteraluraService.java:192-204 | the distinct codes, then an empty code fails with the message before the query; otherwise books whose code equals the typed one ignoring case |
| Servico.Literalura.ExibirEstatisticas | src/main/java/com/literalura/literalura/service/LiteraluraService.java:222-240 | the two counts and the distinct codes; the top-3 query runs iff a book is stored and then yields one to three books |
| Texto.Trim | src/main/java/com/literalura/literalura/service/ApiService.java:144 | String.trim: empty iff every character is at most U+0020; otherwise the infix that starts at the first character above U+0020 and ends at a character above it with only characters up to U+0020 after it |
| Texto.TrimIdempotente | src/main/java/com/literalura/literalura/service/ApiService.java:144 | trimming twice is trimming once |
| Texto.IgualIgnorandoCaixaSse | src/main/java/com/literalura/literalura/model/Autor.java:162 | equalsIgnoreCase holds iff the lower-cased strings are equal |
| Texto.MinusculasDoTrim | src/main/java/com/literalura/literalura/service/ApiService.java:176 | lower-casing and trimming commute |
| Texto.ParseInt | src/main/java/com/literalura/literalura/service/LiteraluraService.java:162 | Integer.parseInt: accepted iff the text is an optional sign in front and one or more digits whose value lies in the 32-bit range, and then that value |
| Texto.ParseIntZerosEMais | src/main/java/com/literalura/literalura/service/LiteraluraService.java:162 | leading zeros and a "+" sign are accepted and do not change the value |
| Texto.ParseIntFronteiras | src/main/java/com/literalura/literalura/service/LiteraluraService.java:162 | "-0" reads as 0; "", "-", "+", "12a" and " 1" are rejected |
| Texto.ParseIntTransbordo | src/main/java/com/literalura/literalura/service/LiteraluraService.java:162 | one past the largest int is rejected |
| Texto.ParseIntDeIntParaTexto | src/main/java/com/literalura/literalura/service/ApiService.java:125 | parsing the decimal text of a 32-bit integer gives it back |

## Left out

- Console I/O. The menu, prompts, printing, table headers and the `%,d` grouping of downloads are not modelled. Typed lines are parameters, and the flows return their outcome.
- JSON decoding. It is the parameter `decodificar`. A decoding failure is the `ConversaoDados` error.
- A null name in the JSON. `AutorDto.nome` is a string, so a null author name is not modelled.
- The network. `HttpClient.send` is the parameter `rede`, a function of the URL and the attempt number. Request headers and timeouts, and `testarConectividade` and `exibirEstatisticasConexao`, are left out. They only do network I/O and logging.
- URL encoding. `URLEncoder.encode` is the parameter `codificar`.
- Timing and logging. The two-second `Thread.sleep` between attempts, its interrupt handling and all logging are left out. They do not change any result the model states.
- Transactions. `@Transactional` boundaries and rollback are not modelled; the store is plain in-memory tables.
- Servico.SalvarNoBanco: keeps a newly created author when the book's save then fails for lack of an id or for a null title. The null-title error text is Hibernate's not-null check; the exact text depends on the persistence configuration. Under the surrounding transaction that insert would be rolled back.
- Bean Validation and column limits. `@NotBlank`, `@Size`, `@Min`, `@Max` and the column length limits apply only when an entity is persisted, and persistence is not modelled.
- Unicode text. Case mapping is ASCII only. Lengths count characters, not UTF-16 code units. `String.hashCode` is computed over those characters.
- Database order and collation. In the model, books without a download count rank last in the top-N order, and strings compare by code point. A database's NULL order and collation may differ.
- Repository queries not named in the core. `findByAnoNascimento`, `findByAnoFalecimento`, `findByTitulo`, `findByTituloContainingIgnoreCase`, `findByAutorId`, `findByAutorNome`, `findByAutorNomeIgnoreCase` and `findAllByOrderByNumeroDownloadsDesc` are not modelled.
- Other service operations. `listarTodosOsLivros` and `listarTodosOsAutores` only print a repository query; the model has the query.
- AutorRepositorio.FindByNome: returns the first author with exactly that name. Spring would throw when several match. `BancoValido` rules that case out for every store the service builds.
- AutorRepositorio.FindByNomeIgnoreCase: returns the first match. Spring would throw when several authors match ignoring case. The store's invariant `BancoValido` rules that case out for every store the service builds.
- The generated author key. It is a counter starting at 1.
- The `setId(null)` test expectation. The test expects `Livro.setId(null)` to throw. The code does not check, and the model follows the code.
- Texto.ParseInt: reads ASCII digits only. `Integer.parseInt` also accepts other Unicode decimal digits, and `Integer.toString` is modelled for decimal text only.

## Findings

| source | as written | input that shows it | evidently intended | confidence | as-written member | corrected member |
|---|---|---|---|---|---|---|
| src/main/java/com/literalura/literalura/service/ApiService.java:94-96 | the handler for any `Exception` also catches the `ApiException` that `processarResposta` throws, so every HTTP error is rethrown with status 0 and the retry test `status < 500` always stops after the first attempt | a server answering 503 on the first attempt and 200 with a body on the second: the request fails after one attempt with status 0 | HTTP errors keep their status, and 5xx responses are retried up to three times | high; not executed | Api.ExecutarRequisicao, Api.ComoEscritoNuncaRetenta, Api.ServidorInstavelExemplo | Api.ExecutarRequisicaoCorrigida, Api.PoliticaDeRetentativa, Api.BuscarCorrigido |
| src/main/java/com/literalura/literalura/model/Autor.java:138 | `getIdadeEm` returns `max(0, ano - nascimento)`, so 0 for a year before birth while the difference fits in an int | an author born 1839 and the year 1820 give 0 | null before birth, as the method's documentation ("null if it cannot be computed") and the unit test at LiteraluraTests.java:71 expect | high; not executed | Modelo.Autor.IdadeEm, Modelo.IdadeAntesDoNascimento | Modelo.Autor.IdadeEmCorrigida |
