# Duty roster (escala) — a Dafny model

The system is a municipal on-call roster tracker. Departments (`Secretaria`)
have staff on call (`Plantonista`). Staff are assigned (`Escala`) to on-call
periods (`Periodo`). A list of emergency contacts (`ContatoEmergencial`) is
kept beside the roster. The model has three modules:

- `QuerySets` (querysets.dfy) models the query operations the pages use:
  - `Filter`;
  - a stable `OrderBy` under a comparator, which must be a total preorder;
  - `First`;
  - code-point string order (`LexLe`);
  - `IsScan`, which says that a sequence of rows is one scan of a table, in whatever order the database returns it.
- `Roster` (roster.dfy) holds the five records and the default orderings (`Meta.ordering`). Its `Store` class keeps one map per table, and its insert and delete methods enforce these rules:
  - the declared uniqueness rules;
  - the foreign keys;
  - CASCADE and SET_NULL on delete.

  `Store.Valid()` is the referential integrity that every method keeps. `plantonistas_escalados` and its reverse side `periodos_escalados` are derived from the escala rows.
- `Views` (views.dfy) models the pages:
  - the "roster today" page (`escala_hoje`), which shows the active period, or else the next one, together with every contact;
  - the list pages, with their orderings and page sizes of 10 and 15;
  - the period detail page, as an `Option`.

Which of several equally ranked rows `.first()` returns is left open. The
database's scan order is a parameter (`rows: seq<Row<T>>`), and every
property is proved for every scan order. `ScanOrderOnlyBreaksTies` and
`TiedActivePeriods` show that the scan order affects nothing but ties.

## Model

| member | source | states |
|---|---|---|
| QuerySets.Filter | escala/views.py:16 | the result holds exactly the rows that satisfy the condition, each as often as in the input |
| QuerySets.First | escala/views.py:16 | first() is absent exactly for an empty queryset, and otherwise is one of its rows |
| QuerySets.IsScan | escala/views.py:28 | a scan lists every stored row of a table once, as a (key, value) row, in some order |
| QuerySets.Insert | escala/views.py:23 | inserting one row adds exactly that row to the multiset |
| QuerySets.OrderBy | escala/views.py:23 | order_by returns a permutation of its input |
| QuerySets.InsertSorted | escala/views.py:23 | inserting into a sorted list keeps it sorted under a total preorder |
| QuerySets.OrderBySorted | escala/views.py:23 | order_by's result is sorted under a total preorder |
| QuerySets.FirstOfOrdered | escala/views.py:16 | first() of an ordered queryset is absent exactly when the queryset is empty; otherwise it is a member that precedes every member |
| QuerySets.HeadPrecedes | escala/views.py:23 | the head of a sorted list precedes every element |
| QuerySets.SameTails | escala/views.py:23 | two lists with equal multisets and equal heads have tails with equal multisets |
| QuerySets.SortedUnique | escala/views.py:28 | two sorted permutations of each other are equal when the order has no ties between distinct rows |
| QuerySets.OrderByWithoutTies | escala/views.py:28 | when no two distinct rows tie, order_by's result does not depend on the input order |
| QuerySets.ScanRows | escala/views.py:28 | a row is in a table scan exactly when its key is stored with that value |
| QuerySets.DistinctOccurrences | escala/views.py:28 | in a list without repeats, every element occurs at most once |
| QuerySets.ScanOccurrences | escala/views.py:28 | every stored row occurs exactly once in a scan |
| QuerySets.ScansArePermutations | escala/views.py:28 | two scans of the same table are permutations of each other |
| QuerySets.LexLeMeaning | escala/models.py:17 | string order holds exactly when a is a prefix of b, or when a has the smaller character at the first position where they differ |
| QuerySets.LexLe | escala/models.py:17 | the text order behind the orderings by nome, nome_completo and orgao, comparing by code point |
| QuerySets.LexLeTotal | escala/models.py:17 | any two strings are comparable |
| QuerySets.LexLeTransitive | escala/models.py:17 | string order is transitive |
| QuerySets.LexLeAntisymmetric | escala/models.py:80 | two strings ordered both ways are equal |
| Roster.DefaultOrderingsArePreorders | escala/models.py:17-87 | the four default orderings, by nome (line 17), nome_completo (line 34), -data_inicio (line 51) and orgao (line 87), are all total preorders |
| Roster.SecretariaOrder | escala/models.py:17 | secretarias are ordered by nome |
| Roster.PlantonistaOrder | escala/models.py:34 | plantonistas are ordered by nome_completo |
| Roster.PeriodoOrder | escala/models.py:51 | periods are ordered by data_inicio, the latest first |
| Roster.ContatoOrder | escala/models.py:87 | contacts are ordered by orgao |
| Roster.PairsAfterInsert | escala/models.py:68 | adding an escala under a fresh key adds exactly its (plantonista, periodo) pair |
| Roster.Unlinked | escala/models.py:27 | on_delete=SET_NULL: a plantonista linked to the deleted account loses the link, and any other is unchanged |
| Roster.Store.constructor | escala/models.py:7-90 | the store starts with every table empty and satisfies the integrity invariant |
| Roster.Store.Valid | escala/models.py:26-27 | every plantonista's secretaria and account exist, every escala's plantonista and period exist, nome, orgao, the (plantonista, periodo) pair and a non-null account are unique, and every key was handed out already |
| Roster.Store.PlantonistasEscalados | escala/models.py:46 | the plantonistas of a period are exactly those with an escala row for it, and all of them exist |
| Roster.Store.PeriodosEscalados | escala/models.py:46 | the periods of a plantonista are exactly those with an escala row for it, and all of them exist |
| Roster.Store.InsertUsuario | escala/models.py:27 | a fresh account is added and nothing else changes |
| Roster.Store.InsertSecretaria | escala/models.py:11 | a nome already in use is rejected with NomeTaken and the table is unchanged; otherwise the row is added under a fresh key |
| Roster.Store.InsertPlantonista | escala/models.py:26-27 | rejected exactly when the secretaria is missing, the account is missing, or the account is already linked; each of these errors is reported exactly when it applies; otherwise the row is added |
| Roster.Store.InsertPeriodo | escala/models.py:43-45 | every period is accepted, even one that ends before it starts |
| Roster.Store.InsertEscala | escala/models.py:63-68 | rejected exactly when the plantonista or the period is missing, or the pair is already assigned; each error is reported exactly when it applies and the table is then unchanged; otherwise the period's plantonistas gain exactly this one |
| Roster.Store.InsertContato | escala/models.py:80 | an orgao already in use is rejected with OrgaoTaken and the table is unchanged; otherwise the row is added |
| Roster.Store.DeleteSecretaria | escala/models.py:26 | removes the secretaria, exactly its plantonistas and every escala of theirs; periods, contacts and accounts are untouched; integrity is kept |
| Roster.Store.DeletePlantonista | escala/models.py:63 | removes the plantonista and exactly its escalas; integrity is kept |
| Roster.Store.DeletePeriodo | escala/models.py:64 | removes the period and exactly its escalas; every plantonista stays, and so do the assignments of every other period |
| Roster.Store.DeleteEscala | escala/models.py:58-70 | removes one assignment only |
| Roster.Store.DeleteContato | escala/models.py:76-87 | removes one contact only |
| Roster.Store.DeleteUsuario | escala/models.py:27 | removes the account and clears the link of the plantonista that had it; no plantonista is deleted, and none is still linked to it |
| Views.PeriodoAtivo | escala/views.py:16 | absent exactly when no period contains now (both ends inclusive); otherwise an active stored period with the latest start among the active ones |
| Views.ProximoPeriodo | escala/views.py:23 | absent exactly when no period starts strictly after now; otherwise such a period with the earliest start |
| Views.ContatoList | escala/views.py:28 | every contact, as often as stored, ordered by orgao |
| Views.EscalaHoje | escala/views.py:6-30 | the status is ativo exactly when some period is active, and the period is then the latest-starting active one; otherwise the status is proximo, and the period is absent exactly when nothing starts later, else it is the earliest later one; the contacts are attached in both cases, sorted by orgao |
| Views.EstaAtivo | escala/views.py:16 | a period is active when it starts at or before now and ends at or after now |
| Views.Futuro | escala/views.py:23 | a period is in the future when it starts strictly after now |
| Views.InicioAsc | escala/views.py:23 | order_by('data_inicio'): the earliest start first |
| Views.ResolverReadsTable | escala/views.py:16-25 | over a scan of the period table, an active or next period is found exactly when the table holds one, and it is a stored row |
| Views.ScanOrderOnlyBreaksTies | escala/views.py:16-23 | two scans of the same rows agree on whether a period is found and on its start |
| Views.TiedActivePeriods | escala/views.py:16 | with two active periods of equal start, the scan order decides which one is shown |
| Views.InvertedPeriod | escala/models.py:44-45 | a period that ends before it starts is never active, at any instant, and so is never the period reported as active |
| Views.InvertedPeriodExample | escala/views.py:16-25 | the period from 100 to 50 is not active at 75 or at 100, yet at 75 it is reported as the next period |
| Views.BoundaryInstants | escala/views.py:16 | a period whose start is not after its end, and that starts or ends exactly now, is active, so an active period is reported |
| Views.StartingNowIsNotNext | escala/views.py:23 | a period that starts exactly now, whatever its end, is never the next one |
| Views.ScenarioActive | escala/views.py:16-20 | a period from 2024-01-01T00:00 to 2024-01-02T00:00 is active at 2024-01-01T12:00 |
| Views.ScenarioNext | escala/views.py:21-25 | at 2024-06-01T00:00, with one period past and two to come, the earlier of the two is next, in every scan order |
| Views.ContatosOnce | escala/views.py:28 | the contact list holds each stored contact exactly once |
| Views.ContatoListDetermined | escala/models.py:80 | because orgao is unique, every scan of the contact table gives the same list |
| Views.SecretariaList | escala/models.py:17 | every secretaria, ordered by nome |
| Views.PeriodoList | escala/views.py:40 | every period, latest start first |
| Views.PlantonistaList | escala/models.py:34 | every plantonista, ordered by nome_completo |
| Views.InicioIsProduct | escala/views.py:41 | page k starts at position (k - 1) times the page size |
| Views.InicioMonotonic | escala/views.py:41 | later pages start no earlier |
| Views.Inicio | escala/views.py:41 | the position where page k starts |
| Views.NumPaginas | escala/views.py:41 | the page count is the ceiling of n / size, and it is one page when there are no items |
| Views.PageBounds | escala/views.py:41 | every page starts inside the list, and every page but the last fits inside it whole |
| Views.Pagina | escala/views.py:41 | page k holds the items from its start on, min(size, rest) of them; it is full unless it is the last, and it is nonempty when there are items |
| Views.PaginaIsSlice | escala/views.py:41 | page k is the one slice of the list from its start to the start plus the page size, cut off at the end of the list |
| Views.Paginas | escala/views.py:41 | the paginator's pages in order: at least one, every page but the last full, the last at most full and nonempty when there are items |
| Views.PaginasConcat | escala/views.py:40-41 | the pages put back together give the whole list |
| Views.PaginaOfRest | escala/views.py:41 | past the first page, paging the list is paging what follows the first page |
| Views.PaginaIsCut | escala/views.py:40-41 | there are as many cuts as pages, and page k is the k-th cut |
| Views.PeriodoListPage | escala/views.py:40-41 | a period page has at most 10 stored periods, latest start first |
| Views.PlantonistaListPage | escala/views.py:59 | a plantonista page has at most 15 stored plantonistas, ordered by name |
| Views.PeriodoPageIsSlice | escala/views.py:40-41 | period page k is the slice [(k-1)*10, min(k*10, n)) of the ordered list |
| Views.PlantonistaPageIsSlice | escala/views.py:59 | plantonista page k is the slice [(k-1)*15, min(k*15, n)) of the ordered list |
| Views.PeriodoPagesCoverList | escala/views.py:40-41 | the period pages, in order, are exactly the ordered period list |
| Views.PeriodoPageOfAnyScan | escala/views.py:40-41 | when no two periods share a start, page k read from any scan of the periods is the k-th cut of the ordered list |
| Views.PlantonistaPageOfAnyScan | escala/views.py:59 | when no two plantonistas share a full name, page k read from any scan is the k-th cut of the ordered list |
| Views.TiedPeriodsAcrossPages | escala/views.py:40-41 | with two periods of equal start and one per page, two scans can show the same period on both pages and the other on neither |
| Views.SixteenPlantonistas | escala/views.py:59 | sixteen plantonistas make two pages, of 15 and of 1 |
| Views.PeriodoDetail | escala/views.py:43-50 | absent exactly for an unknown key; otherwise the stored period and exactly the plantonistas assigned to it |

## Left out

- The clock (`timezone.now()`) and `auto_now_add` on `data_criacao` are not modelled as reads. The current time `agora` is a parameter of the resolver and of `Store.InsertEscala`.
- Template rendering, HTTP responses and the not-found page of the detail view are not modelled. The detail lookup is an `Option`.
- The admin configuration and the URL table have no logic of their own and are not part of this model.
- `__str__` and its `strftime` date formatting are not modelled. They are presentation only.
- Django's paginator decides what happens for page numbers out of range, so the page functions require 1 <= k <= the page count. The model does not claim an empty page for other k; it follows the code, which hands the page number to the paginator.
- `max_length` on the text fields is not enforced. It is form and column validation.
- Editing an existing row is not modelled. The pages only read, and rows are only inserted and deleted here.
- Transactions, isolation and concurrent requests are not modelled.
- Strings are compared and ordered by code point. A database collation may order names differently, and under a case-insensitive collation two `nome` or `orgao` values that differ only in letter case would collide, which the uniqueness rules here do not model.
- Views.PeriodoPagesCoverList: it reads every page from one scan, with one tie order. Each page is a separate request with its own scan, so rows that tie on `data_inicio` (or, for plantonistas, on `nome_completo`) can be shown twice or not at all at a page boundary (`TiedPeriodsAcrossPages`). The pages of separate requests cover the list when there are no ties (`PeriodoPageOfAnyScan`, `PlantonistaPageOfAnyScan`).
- System accounts are reduced to their keys. The authentication framework that owns them is not part of this model.
- All tables share one key counter, where a database keeps one sequence per table. Only the freshness of keys matters here.
- `escala_ativa` is stored but has no behaviour in the code. Its default of true is not modelled: `Store.InsertSecretaria` takes the value from the caller.
- The resolver and the list pages take table scans as values, so "the resolver changes no stored data" holds by construction and is not stated about `Store`.
