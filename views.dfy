/** The read-only pages (escala/views.py): the "roster today" page, which
    shows the active period or else the next one together with every
    emergency contact, the period detail page, and the list pages with
    their orderings and page sizes. Each page reads one scan of a table
    (see QuerySets.IsScan) in the order the store returns it; the clock
    reading `agora` is a parameter. */
module Views {
  import opened QuerySets
  import opened Roster

  /** PeriodoListView.paginate_by */
  const PeriodosPorPagina: nat := 10
  /** PlantonistaListView.paginate_by */
  const PlantonistasPorPagina: nat := 15

  datatype Status = Ativo | Proximo

  /** What the "roster today" page renders. */
  datatype Contexto = Contexto(
    periodo: Option<Row<Periodo>>,
    status: Status,
    contatosEmergenciais: seq<Row<ContatoEmergencial>>)

  /** filter(data_inicio__lte=agora, data_fim__gte=agora): both ends inclusive. */
  predicate EstaAtivo(p: Periodo, agora: Instant) {
    p.dataInicio <= agora <= p.dataFim
  }

  /** filter(data_inicio__gt=agora): strictly later. */
  predicate Futuro(p: Periodo, agora: Instant) {
    p.dataInicio > agora
  }

  /** order_by('data_inicio'): the earliest start first. */
  predicate InicioAsc(a: Row<Periodo>, b: Row<Periodo>) {
    a.val.dataInicio <= b.val.dataInicio
  }

  function AtivoEm(agora: Instant): Row<Periodo> -> bool {
    (q: Row<Periodo>) => EstaAtivo(q.val, agora)
  }

  function FuturoEm(agora: Instant): Row<Periodo> -> bool {
    (q: Row<Periodo>) => Futuro(q.val, agora)
  }

  /** Periodo.objects.filter(<active at agora>).first(), under the default
      ordering '-data_inicio': an active period with the latest start.
      Which of several active periods with that start is picked depends on
      the scan order only. */
  function PeriodoAtivo(periodos: seq<Row<Periodo>>, agora: Instant): (r: Option<Row<Periodo>>)
    ensures r.None? <==> forall q :: q in periodos ==> !EstaAtivo(q.val, agora)
    ensures r.Some? ==> r.value in periodos && EstaAtivo(r.value.val, agora)
    ensures r.Some? ==> forall q :: q in periodos && EstaAtivo(q.val, agora) ==> q.val.dataInicio <= r.value.val.dataInicio
    ensures r.Some? ==> r.value.val.dataInicio <= r.value.val.dataFim
  {
    var ativos := Filter(periodos, AtivoEm(agora));
    DefaultOrderingsArePreorders();
    FirstOfOrdered(ativos, PeriodoOrder);
    First(OrderBy(ativos, PeriodoOrder))
  }

  /** Periodo.objects.filter(data_inicio__gt=agora).order_by('data_inicio').first():
      a period that starts strictly after `agora`, with the earliest such start. */
  function ProximoPeriodo(periodos: seq<Row<Periodo>>, agora: Instant): (r: Option<Row<Periodo>>)
    ensures r.None? <==> forall q :: q in periodos ==> !Futuro(q.val, agora)
    ensures r.Some? ==> r.value in periodos && Futuro(r.value.val, agora)
    ensures r.Some? ==> forall q :: q in periodos && Futuro(q.val, agora) ==> r.value.val.dataInicio <= q.val.dataInicio
  {
    var futuros := Filter(periodos, FuturoEm(agora));
    assert TotalPreorder(InicioAsc);
    FirstOfOrdered(futuros, InicioAsc);
    First(OrderBy(futuros, InicioAsc))
  }

  /** ContatoEmergencial.objects.all(), in the default ordering 'orgao';
      also the contact list page. */
  function ContatoList(contatos: seq<Row<ContatoEmergencial>>): (r: seq<Row<ContatoEmergencial>>)
    ensures multiset(r) == multiset(contatos)
    ensures Sorted(r, ContatoOrder)
  {
    DefaultOrderingsArePreorders();
    OrderBySorted(contatos, ContatoOrder);
    OrderBy(contatos, ContatoOrder)
  }

  /** The "roster today" page: the active period if there is one, else the
      next one (possibly none), and every contact in either case. */
  method EscalaHoje(periodos: seq<Row<Periodo>>, contatos: seq<Row<ContatoEmergencial>>, agora: Instant)
    returns (contexto: Contexto)
    ensures contexto.status == Ativo <==> exists q :: q in periodos && EstaAtivo(q.val, agora)
    ensures contexto.status == Ativo ==>
              && contexto.periodo.Some?
              && contexto.periodo.value in periodos
              && EstaAtivo(contexto.periodo.value.val, agora)
              && forall q :: q in periodos && EstaAtivo(q.val, agora) ==>
                               q.val.dataInicio <= contexto.periodo.value.val.dataInicio
    ensures contexto.status == Proximo ==>
              && (contexto.periodo.None? <==> forall q :: q in periodos ==> !Futuro(q.val, agora))
              && (contexto.periodo.Some? ==>
                    && contexto.periodo.value in periodos
                    && Futuro(contexto.periodo.value.val, agora)
                    && forall q :: q in periodos && Futuro(q.val, agora) ==>
                                     contexto.periodo.value.val.dataInicio <= q.val.dataInicio)
    ensures multiset(contexto.contatosEmergenciais) == multiset(contatos)
    ensures Sorted(contexto.contatosEmergenciais, ContatoOrder)
  {
    var periodo: Option<Row<Periodo>>;
    var status: Status;
    var periodoAtivo := PeriodoAtivo(periodos, agora);
    if periodoAtivo.Some? {
      periodo := periodoAtivo;
      status := Ativo;
    } else {
      periodo := ProximoPeriodo(periodos, agora);
      status := Proximo;
    }
    contexto := Contexto(periodo, status, ContatoList(contatos));
  }

  /** Over a scan of the table, the page reports stored periods, and it
      finds an active one exactly when the table holds one. */
  lemma ResolverReadsTable(rows: seq<Row<Periodo>>, table: map<Id, Periodo>, agora: Instant)
    requires IsScan(rows, table)
    ensures PeriodoAtivo(rows, agora).Some? <==> exists k :: k in table && EstaAtivo(table[k], agora)
    ensures ProximoPeriodo(rows, agora).Some? <==> exists k :: k in table && Futuro(table[k], agora)
    ensures PeriodoAtivo(rows, agora).Some? ==>
              var q := PeriodoAtivo(rows, agora).value; q.id in table && table[q.id] == q.val
    ensures ProximoPeriodo(rows, agora).Some? ==>
              var q := ProximoPeriodo(rows, agora).value; q.id in table && table[q.id] == q.val
  {
    forall k | k in table ensures Row(k, table[k]) in rows {
      ScanRows(rows, table, k, table[k]);
    }
    forall q | q in rows ensures q.id in table && table[q.id] == q.val {
      ScanRows(rows, table, q.id, q.val);
    }
  }

  /** The scan order decides nothing but ties: two scans of the same rows
      agree on whether there is an active (or next) period and on its start. */
  lemma ScanOrderOnlyBreaksTies(a: seq<Row<Periodo>>, b: seq<Row<Periodo>>, agora: Instant)
    requires multiset(a) == multiset(b)
    ensures PeriodoAtivo(a, agora).Some? == PeriodoAtivo(b, agora).Some?
    ensures PeriodoAtivo(a, agora).Some? ==>
              PeriodoAtivo(a, agora).value.val.dataInicio == PeriodoAtivo(b, agora).value.val.dataInicio
    ensures ProximoPeriodo(a, agora).Some? == ProximoPeriodo(b, agora).Some?
    ensures ProximoPeriodo(a, agora).Some? ==>
              ProximoPeriodo(a, agora).value.val.dataInicio == ProximoPeriodo(b, agora).value.val.dataInicio
  {
    forall q ensures q in a <==> q in b {
      assert q in a <==> q in multiset(a);
      assert q in b <==> q in multiset(b);
    }
  }

  lemma FilterKeepsPair<T(!new)>(x: T, y: T, p: T -> bool)
    requires p(x) && p(y)
    ensures Filter([x, y], p) == [x, y]
  {
    assert [x, y][1..] == [y];
    assert [y][1..] == [];
  }

  lemma OrderByPair<T>(x: T, y: T, le: (T, T) -> bool)
    requires le(x, y)
    ensures OrderBy([x, y], le) == [x, y]
  {
    assert [x, y][1..] == [y];
    assert [y][1..] == [];
    assert OrderBy([y], le) == [y];
  }

  /** Two periods with the same start, both active: which one the page
      shows follows the scan order, so the choice is not determined by the
      stored data. */
  lemma TiedActivePeriods()
    ensures var a := Row(1, Periodo("A", 0, 10));
            var b := Row(2, Periodo("B", 0, 20));
            PeriodoAtivo([a, b], 5) == Some(a) && PeriodoAtivo([b, a], 5) == Some(b)
  {
    var a := Row(1, Periodo("A", 0, 10));
    var b := Row(2, Periodo("B", 0, 20));
    FilterKeepsPair(a, b, AtivoEm(5));
    FilterKeepsPair(b, a, AtivoEm(5));
    OrderByPair(a, b, PeriodoOrder);
    OrderByPair(b, a, PeriodoOrder);
  }

  /** A period that ends before it starts is never active, at any instant,
      so it is never the period reported as active. */
  lemma InvertedPeriod(periodos: seq<Row<Periodo>>, q: Row<Periodo>, agora: Instant)
    requires q in periodos && q.val.dataFim < q.val.dataInicio
    ensures !EstaAtivo(q.val, agora)
    ensures PeriodoAtivo(periodos, agora) != Some(q)
  {
  }

  /** An example: the inverted period from 100 to 50 is not active at 75
      or at 100, but at 75 it is still announced as the next one. */
  lemma InvertedPeriodExample()
    ensures var p := Row(1, Periodo("invertido", 100, 50));
            PeriodoAtivo([p], 75) == None && PeriodoAtivo([p], 100) == None &&
            ProximoPeriodo([p], 75) == Some(p)
  {
    var p := Row(1, Periodo("invertido", 100, 50));
    assert !EstaAtivo(p.val, 75) && !EstaAtivo(p.val, 100);
    assert forall q :: q in [p] ==> q == p;
    assert Futuro(p.val, 75);
  }

  /** The boundaries of "active": a period that starts or ends exactly at
      `agora` is active, so some period is reported as active. */
  lemma BoundaryInstants(periodos: seq<Row<Periodo>>, q: Row<Periodo>, agora: Instant)
    requires q in periodos
    requires q.val.dataInicio == agora || q.val.dataFim == agora
    requires q.val.dataInicio <= q.val.dataFim
    ensures EstaAtivo(q.val, agora)
    ensures PeriodoAtivo(periodos, agora).Some?
  {
  }

  /** The boundary of "next": a period that starts exactly at `agora`,
      whatever its end, is never the next one. */
  lemma StartingNowIsNotNext(periodos: seq<Row<Periodo>>, q: Row<Periodo>, agora: Instant)
    requires q in periodos && q.val.dataInicio == agora
    ensures ProximoPeriodo(periodos, agora) != Some(q)
  {
  }

  // Scenarios, times in seconds since 1970-01-01T00:00 UTC.

  /** Period A, 2024-01-01T00:00 to 2024-01-02T00:00, seen at 2024-01-01T12:00, is active. */
  lemma ScenarioActive()
    ensures var a := Row(1, Periodo("A", 1704067200, 1704153600));
            PeriodoAtivo([a], 1704110400) == Some(a)
  {
    var a := Row(1, Periodo("A", 1704067200, 1704153600));
    assert EstaAtivo(a.val, 1704110400);
    assert forall q :: q in [a] ==> q == a;
  }

  /** At 2024-06-01T00:00, with A in the past and B starting 2024-06-05T00:00
      before C, B is the next period, whatever the scan order. */
  lemma ScenarioNext(a: Row<Periodo>, b: Row<Periodo>, c: Row<Periodo>, rows: seq<Row<Periodo>>)
    requires a.val.dataInicio == 1704067200 && a.val.dataFim == 1704153600
    requires b.val.dataInicio == 1717545600 && b.val.dataFim == 1717632000
    requires c.val.dataInicio == 1718000000 && c.val.dataFim == 1718100000
    requires multiset(rows) == multiset{a, b, c}
    ensures PeriodoAtivo(rows, 1717200000) == None
    ensures ProximoPeriodo(rows, 1717200000) == Some(b)
  {
    var agora := 1717200000;
    forall q | q in rows ensures q == a || q == b || q == c {
      assert q in multiset(rows);
    }
    assert forall q :: q in rows ==> !EstaAtivo(q.val, agora);
    var ativo := PeriodoAtivo(rows, agora);
    assert ativo.None?;
    assert b in rows by {
      assert b in multiset(rows);
    }
    assert Futuro(b.val, agora);
    var r := ProximoPeriodo(rows, agora);
    assert r.Some?;
    var x := r.value;
    assert x in rows && Futuro(x.val, agora);
    assert x.val.dataInicio <= b.val.dataInicio;
    assert x == a || x == b || x == c;
    assert x != a && x != c;
  }

  /** Over a scan of the contact table the page lists each stored contact
      exactly once. */
  lemma ContatosOnce(rows: seq<Row<ContatoEmergencial>>, table: map<Id, ContatoEmergencial>, k: Id)
    requires IsScan(rows, table) && k in table
    ensures multiset(ContatoList(rows))[Row(k, table[k])] == 1
  {
    ScanOccurrences(rows, table, k);
  }

  /** 'orgao' is unique, so the contact list is fully determined by the
      stored contacts, whatever the scan order. */
  lemma ContatoListDetermined(a: seq<Row<ContatoEmergencial>>, b: seq<Row<ContatoEmergencial>>,
                              table: map<Id, ContatoEmergencial>)
    requires IsScan(a, table) && IsScan(b, table) && UniqueOrgaos(table)
    ensures ContatoList(a) == ContatoList(b)
  {
    ScansArePermutations(a, b, table);
    DefaultOrderingsArePreorders();
    forall x, y | x in a && y in a && ContatoOrder(x, y) && ContatoOrder(y, x) ensures x == y {
      LexLeAntisymmetric(x.val.orgao, y.val.orgao);
      ScanRows(a, table, x.id, x.val);
      ScanRows(a, table, y.id, y.val);
    }
    OrderByWithoutTies(a, b, ContatoOrder);
  }

  /** SecretariaListView: every secretaria, in the default ordering 'nome'. */
  function SecretariaList(secretarias: seq<Row<Secretaria>>): (r: seq<Row<Secretaria>>)
    ensures multiset(r) == multiset(secretarias)
    ensures Sorted(r, SecretariaOrder)
  {
    DefaultOrderingsArePreorders();
    OrderBySorted(secretarias, SecretariaOrder);
    OrderBy(secretarias, SecretariaOrder)
  }

  /** The period list, ordering = ['-data_inicio']. */
  function PeriodoList(periodos: seq<Row<Periodo>>): (r: seq<Row<Periodo>>)
    ensures multiset(r) == multiset(periodos)
    ensures |r| == |periodos|
    ensures Sorted(r, PeriodoOrder)
  {
    DefaultOrderingsArePreorders();
    OrderBySorted(periodos, PeriodoOrder);
    assert |OrderBy(periodos, PeriodoOrder)| == |multiset(periodos)|;
    OrderBy(periodos, PeriodoOrder)
  }

  /** The plantonista list, in the default ordering 'nome_completo'. */
  function PlantonistaList(plantonistas: seq<Row<Plantonista>>): (r: seq<Row<Plantonista>>)
    ensures multiset(r) == multiset(plantonistas)
    ensures |r| == |plantonistas|
    ensures Sorted(r, PlantonistaOrder)
  {
    DefaultOrderingsArePreorders();
    OrderBySorted(plantonistas, PlantonistaOrder);
    assert |OrderBy(plantonistas, PlantonistaOrder)| == |multiset(plantonistas)|;
    OrderBy(plantonistas, PlantonistaOrder)
  }

  // Pagination.

  function Min(a: int, b: int): int { if a <= b then a else b }
  function Max(a: int, b: int): int { if a >= b then a else b }

  /** Where page `k` (from 1) starts, (k - 1) * porPagina, written as a
      sum (see InicioIsProduct). */
  function Inicio(k: nat, porPagina: nat): nat {
    if k <= 1 then 0 else Inicio(k - 1, porPagina) + porPagina
  }

  lemma {:induction false} InicioIsProduct(k: nat, porPagina: nat)
    requires k >= 1
    ensures Inicio(k, porPagina) == (k - 1) * porPagina
  {
    if k > 1 {
      InicioIsProduct(k - 1, porPagina);
      assert (k - 1) * porPagina == (k - 2) * porPagina + porPagina;
    }
  }

  lemma {:induction false} InicioMonotonic(j: nat, k: nat, porPagina: nat)
    requires 1 <= j <= k
    ensures Inicio(j, porPagina) <= Inicio(k, porPagina)
    decreases k - j
  {
    if j < k {
      InicioMonotonic(j, k - 1, porPagina);
    }
  }

  /** The number of pages of `n` items: the ceiling of n / porPagina, and
      one (empty) page when there are no items. */
  function NumPaginas(n: nat, porPagina: nat): (r: nat)
    requires porPagina > 0
    ensures r >= 1
    ensures Inicio(r, porPagina) < Max(1, n) <= Inicio(r, porPagina) + porPagina
    decreases n
  {
    if n <= porPagina then 1 else 1 + NumPaginas(n - porPagina, porPagina)
  }

  /** Every page starts within the list, and every page but the last is full. */
  lemma PageBounds(n: nat, porPagina: nat, k: nat)
    requires porPagina > 0 && 1 <= k <= NumPaginas(n, porPagina)
    ensures Inicio(k, porPagina) <= n
    ensures n > 0 ==> Inicio(k, porPagina) < n
    ensures k < NumPaginas(n, porPagina) ==> Inicio(k, porPagina) + porPagina <= n
  {
    var total := NumPaginas(n, porPagina);
    InicioMonotonic(k, total, porPagina);
    if k < total {
      InicioMonotonic(k + 1, total, porPagina);
    }
  }

  /** Page `k` (from 1) holds the items from position Inicio(k) on: a full
      page except possibly the last, and never empty unless there are no
      items at all. */
  function Pagina<T>(itens: seq<T>, porPagina: nat, k: nat): (r: seq<T>)
    requires porPagina > 0 && 1 <= k <= NumPaginas(|itens|, porPagina)
    ensures Inicio(k, porPagina) <= |itens|
    ensures |r| == Min(porPagina, |itens| - Inicio(k, porPagina))
    ensures forall i :: 0 <= i < |r| ==> r[i] == itens[Inicio(k, porPagina) + i]
    ensures k < NumPaginas(|itens|, porPagina) ==> |r| == porPagina
    ensures |itens| > 0 ==> |r| > 0
  {
    PageBounds(|itens|, porPagina, k);
    var inicio := Inicio(k, porPagina);
    itens[inicio .. Min(inicio + porPagina, |itens|)]
  }

  /** Page `k` as one slice of the list. */
  lemma PaginaIsSlice<T>(itens: seq<T>, porPagina: nat, k: nat)
    requires porPagina > 0 && 1 <= k <= NumPaginas(|itens|, porPagina)
    ensures Inicio(k, porPagina) <= Min(Inicio(k, porPagina) + porPagina, |itens|) <= |itens|
    ensures Pagina(itens, porPagina, k) == itens[Inicio(k, porPagina) .. Min(Inicio(k, porPagina) + porPagina, |itens|)]
  {
    PageBounds(|itens|, porPagina, k);
  }

  /** The pages as a list, cut off one full page at a time. */
  function Paginas<T>(itens: seq<T>, porPagina: nat): (r: seq<seq<T>>)
    requires porPagina > 0
    ensures |r| >= 1
    ensures forall i :: 0 <= i < |r| - 1 ==> |r[i]| == porPagina
    ensures |r[|r| - 1]| <= porPagina
    ensures |itens| > 0 ==> |r[|r| - 1]| > 0
    decreases |itens|
  {
    if |itens| <= porPagina then [itens]
    else [itens[..porPagina]] + Paginas(itens[porPagina..], porPagina)
  }

  function Concat<T>(paginas: seq<seq<T>>): seq<T> {
    if paginas == [] then [] else paginas[0] + Concat(paginas[1..])
  }

  /** The pages put back together are the whole list. */
  lemma {:induction false} PaginasConcat<T>(itens: seq<T>, porPagina: nat)
    requires porPagina > 0
    ensures Concat(Paginas(itens, porPagina)) == itens
    decreases |itens|
  {
    if |itens| > porPagina {
      PaginasConcat(itens[porPagina..], porPagina);
      assert itens == itens[..porPagina] + itens[porPagina..];
    }
  }

  /** Past the first page, paging a list is paging what follows its first page. */
  lemma PaginaOfRest<T>(itens: seq<T>, porPagina: nat, k: nat)
    requires porPagina > 0 && |itens| > porPagina && 2 <= k <= NumPaginas(|itens|, porPagina)
    ensures NumPaginas(|itens| - porPagina, porPagina) == NumPaginas(|itens|, porPagina) - 1
    ensures Pagina(itens, porPagina, k) == Pagina(itens[porPagina..], porPagina, k - 1)
  {
    var resto := itens[porPagina..];
    var r := Pagina(resto, porPagina, k - 1);
    var p := Pagina(itens, porPagina, k);
    assert Inicio(k, porPagina) == Inicio(k - 1, porPagina) + porPagina;
    assert |p| == |r|;
    forall i | 0 <= i < |p| ensures p[i] == r[i] {
      assert r[i] == resto[Inicio(k - 1, porPagina) + i];
    }
  }

  /** Page `k` of the paginator is the k-th cut of the list, and there are
      as many cuts as pages. */
  lemma {:induction false} PaginaIsCut<T>(itens: seq<T>, porPagina: nat, k: nat)
    requires porPagina > 0 && 1 <= k <= NumPaginas(|itens|, porPagina)
    ensures |Paginas(itens, porPagina)| == NumPaginas(|itens|, porPagina)
    ensures Paginas(itens, porPagina)[k - 1] == Pagina(itens, porPagina, k)
    decreases |itens|
  {
    if |itens| > porPagina {
      var resto := itens[porPagina..];
      var cortes := Paginas(itens, porPagina);
      assert cortes == [itens[..porPagina]] + Paginas(resto, porPagina);
      if k == 1 {
        PaginaIsCut(resto, porPagina, 1);
      } else {
        PaginaOfRest(itens, porPagina, k);
        PaginaIsCut(resto, porPagina, k - 1);
        assert cortes[k - 1] == Paginas(resto, porPagina)[k - 2];
      }
    }
  }

  /** Page `k` of the period list: at most 10 periods, latest start first. */
  function PeriodoListPage(periodos: seq<Row<Periodo>>, k: nat): (r: seq<Row<Periodo>>)
    requires 1 <= k <= NumPaginas(|periodos|, PeriodosPorPagina)
    ensures |r| <= PeriodosPorPagina
    ensures Sorted(r, PeriodoOrder)
    ensures forall q :: q in r ==> q in periodos
  {
    var todos := PeriodoList(periodos);
    var p := Pagina(todos, PeriodosPorPagina, k);
    forall q | q in p ensures q in periodos {
      assert q in multiset(todos);
    }
    p
  }

  /** Page `k` of the plantonista list: at most 15, by name. */
  function PlantonistaListPage(plantonistas: seq<Row<Plantonista>>, k: nat): (r: seq<Row<Plantonista>>)
    requires 1 <= k <= NumPaginas(|plantonistas|, PlantonistasPorPagina)
    ensures |r| <= PlantonistasPorPagina
    ensures Sorted(r, PlantonistaOrder)
    ensures forall q :: q in r ==> q in plantonistas
  {
    var todos := PlantonistaList(plantonistas);
    var p := Pagina(todos, PlantonistasPorPagina, k);
    forall q | q in p ensures q in plantonistas {
      assert q in multiset(todos);
    }
    p
  }

  /** Page `k` of the period list is the slice [(k-1)*10, min(k*10, n)) of
      the periods ordered by descending start. */
  lemma PeriodoPageIsSlice(periodos: seq<Row<Periodo>>, k: nat)
    requires 1 <= k <= NumPaginas(|periodos|, PeriodosPorPagina)
    ensures (k - 1) * 10 <= |periodos|
    ensures PeriodoListPage(periodos, k) == PeriodoList(periodos)[(k - 1) * 10 .. Min(k * 10, |periodos|)]
  {
    PaginaIsSlice(PeriodoList(periodos), PeriodosPorPagina, k);
    InicioIsProduct(k, PeriodosPorPagina);
    assert Inicio(k, PeriodosPorPagina) + PeriodosPorPagina == k * 10;
  }

  /** Page `k` of the plantonista list is the slice [(k-1)*15, min(k*15, n))
      of the plantonistas ordered by name. */
  lemma PlantonistaPageIsSlice(plantonistas: seq<Row<Plantonista>>, k: nat)
    requires 1 <= k <= NumPaginas(|plantonistas|, PlantonistasPorPagina)
    ensures (k - 1) * 15 <= |plantonistas|
    ensures PlantonistaListPage(plantonistas, k) == PlantonistaList(plantonistas)[(k - 1) * 15 .. Min(k * 15, |plantonistas|)]
  {
    PaginaIsSlice(PlantonistaList(plantonistas), PlantonistasPorPagina, k);
    InicioIsProduct(k, PlantonistasPorPagina);
    assert Inicio(k, PlantonistasPorPagina) + PlantonistasPorPagina == k * 15;
  }

  /** The period pages, in order, are exactly the ordered period list. */
  lemma PeriodoPagesCoverList(periodos: seq<Row<Periodo>>)
    ensures |Paginas(PeriodoList(periodos), PeriodosPorPagina)| == NumPaginas(|periodos|, PeriodosPorPagina)
    ensures forall k :: 1 <= k <= NumPaginas(|periodos|, PeriodosPorPagina) ==>
              Paginas(PeriodoList(periodos), PeriodosPorPagina)[k - 1] == PeriodoListPage(periodos, k)
    ensures Concat(Paginas(PeriodoList(periodos), PeriodosPorPagina)) == PeriodoList(periodos)
  {
    var todos := PeriodoList(periodos);
    PaginaIsCut(todos, PeriodosPorPagina, 1);
    forall k | 1 <= k <= NumPaginas(|periodos|, PeriodosPorPagina)
      ensures Paginas(todos, PeriodosPorPagina)[k - 1] == PeriodoListPage(periodos, k)
    {
      PaginaIsCut(todos, PeriodosPorPagina, k);
    }
    PaginasConcat(todos, PeriodosPorPagina);
  }

  /** Each page is its own request, and so its own scan. When no two
      periods share a start, page k of any scan is the k-th cut of the
      ordered list, so the pages of separate requests still cover the list
      (PeriodoPagesCoverList, PaginasConcat). */
  lemma PeriodoPageOfAnyScan(periodos: seq<Row<Periodo>>, scan: seq<Row<Periodo>>, k: nat)
    requires multiset(scan) == multiset(periodos)
    requires forall x, y :: x in periodos && y in periodos && x.val.dataInicio == y.val.dataInicio ==> x == y
    requires 1 <= k <= NumPaginas(|periodos|, PeriodosPorPagina)
    ensures |scan| == |periodos|
    ensures |Paginas(PeriodoList(periodos), PeriodosPorPagina)| == NumPaginas(|periodos|, PeriodosPorPagina)
    ensures PeriodoListPage(scan, k) == Paginas(PeriodoList(periodos), PeriodosPorPagina)[k - 1]
  {
    assert |scan| == |multiset(scan)| == |periodos|;
    DefaultOrderingsArePreorders();
    forall x, y | x in scan && y in scan && PeriodoOrder(x, y) && PeriodoOrder(y, x) ensures x == y {
      assert x in multiset(periodos) && y in multiset(periodos);
    }
    OrderByWithoutTies(scan, periodos, PeriodoOrder);
    PaginaIsCut(PeriodoList(periodos), PeriodosPorPagina, k);
  }

  /** The same for plantonistas, when no two share a full name. */
  lemma PlantonistaPageOfAnyScan(plantonistas: seq<Row<Plantonista>>, scan: seq<Row<Plantonista>>, k: nat)
    requires multiset(scan) == multiset(plantonistas)
    requires forall x, y :: x in plantonistas && y in plantonistas && x.val.nomeCompleto == y.val.nomeCompleto ==> x == y
    requires 1 <= k <= NumPaginas(|plantonistas|, PlantonistasPorPagina)
    ensures |scan| == |plantonistas|
    ensures |Paginas(PlantonistaList(plantonistas), PlantonistasPorPagina)| == NumPaginas(|plantonistas|, PlantonistasPorPagina)
    ensures PlantonistaListPage(scan, k) == Paginas(PlantonistaList(plantonistas), PlantonistasPorPagina)[k - 1]
  {
    assert |scan| == |multiset(scan)| == |plantonistas|;
    DefaultOrderingsArePreorders();
    forall x, y | x in scan && y in scan && PlantonistaOrder(x, y) && PlantonistaOrder(y, x) ensures x == y {
      assert x in multiset(plantonistas) && y in multiset(plantonistas);
      LexLeAntisymmetric(x.val.nomeCompleto, y.val.nomeCompleto);
    }
    OrderByWithoutTies(scan, plantonistas, PlantonistaOrder);
    PaginaIsCut(PlantonistaList(plantonistas), PlantonistasPorPagina, k);
  }

  /** With ties, separate requests need not cover the list. Two periods
      with the same start, one per page: the scan [a, b] puts a on page 1,
      the scan [b, a] puts a on page 2, so a is shown twice and b never. */
  lemma TiedPeriodsAcrossPages()
    ensures var a := Row(1, Periodo("A", 0, 10));
            var b := Row(2, Periodo("B", 0, 20));
            NumPaginas(2, 1) == 2 &&
            Pagina(PeriodoList([a, b]), 1, 1) == [a] && Pagina(PeriodoList([b, a]), 1, 2) == [a]
  {
    var a := Row(1, Periodo("A", 0, 10));
    var b := Row(2, Periodo("B", 0, 20));
    OrderByPair(a, b, PeriodoOrder);
    OrderByPair(b, a, PeriodoOrder);
    assert NumPaginas(1, 1) == 1;
  }

  /** Sixteen plantonistas make two pages, of 15 and of 1. */
  lemma SixteenPlantonistas(plantonistas: seq<Row<Plantonista>>)
    requires |plantonistas| == 16
    ensures NumPaginas(|plantonistas|, PlantonistasPorPagina) == 2
    ensures |PlantonistaListPage(plantonistas, 1)| == 15
    ensures |PlantonistaListPage(plantonistas, 2)| == 1
  {
    assert NumPaginas(1, 15) == 1;
    assert |PlantonistaList(plantonistas)| == |multiset(plantonistas)| == 16;
  }

  /** PeriodoDetailView: the period with key `pk` and the plantonistas
      assigned to it, or nothing (a not-found page) for an unknown key. */
  datatype Detalhe = Detalhe(periodo: Periodo, plantonistas: set<Id>)

  function PeriodoDetail(db: Store, pk: Id): (r: Option<Detalhe>)
    reads db
    requires db.Valid()
    ensures r.None? <==> pk !in db.periodos
    ensures r.Some? ==> r.value.periodo == db.periodos[pk]
    ensures r.Some? ==> r.value.plantonistas <= db.plantonistas.Keys
    ensures r.Some? ==> forall pl :: pl in r.value.plantonistas <==> PairInUse(db.escalas, pl, pk)
  {
    if pk in db.periodos then Some(Detalhe(db.periodos[pk], db.PlantonistasEscalados(pk))) else None
  }
}
