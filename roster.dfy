/** The roster schema (escala/models.py): departments (secretarias), staff
    on call (plantonistas), on-call periods (periodos), the assignments that
    link staff to periods (escalas), emergency contacts and the system
    accounts staff may be linked to. The store holds one table per entity
    and enforces the declared uniqueness rules, foreign keys and on-delete
    behaviour. */
module Roster {
  import opened QuerySets

  /** A DateTimeField value; only its order matters. */
  type Instant = int

  datatype Secretaria = Secretaria(nome: string, escalaAtiva: bool)

  datatype Plantonista = Plantonista(
    secretaria: Id,
    usuario: Option<Id>,
    nomeCompleto: string,
    telefones: string)

  datatype Periodo = Periodo(descricao: string, dataInicio: Instant, dataFim: Instant)

  datatype Escala = Escala(plantonista: Id, periodo: Id, dataCriacao: Instant)

  datatype ContatoEmergencial = ContatoEmergencial(
    orgao: string,
    telefones: string,
    observacao: Option<string>)

  /** The field errors a rejected insertion reports. */
  datatype Violation =
    | NomeTaken           // Secretaria.nome is unique
    | OrgaoTaken          // ContatoEmergencial.orgao is unique
    | PairTaken           // (plantonista, periodo) is unique for Escala
    | UsuarioTaken        // at most one Plantonista per account
    | NoSuchSecretaria    // dangling foreign key
    | NoSuchUsuario
    | NoSuchPlantonista
    | NoSuchPeriodo

  /** The outcome of an insertion: the new row's key, or every rule it breaks. */
  datatype Saved = Created(id: Id) | Rejected(errors: set<Violation>)

  // Default orderings (Meta.ordering), used by the list pages.

  /** Secretaria: ordering = ['nome']. */
  predicate SecretariaOrder(a: Row<Secretaria>, b: Row<Secretaria>) {
    LexLe(a.val.nome, b.val.nome)
  }

  /** Plantonista: ordering = ['nome_completo']. */
  predicate PlantonistaOrder(a: Row<Plantonista>, b: Row<Plantonista>) {
    LexLe(a.val.nomeCompleto, b.val.nomeCompleto)
  }

  /** Periodo: ordering = ['-data_inicio'], the latest start first. */
  predicate PeriodoOrder(a: Row<Periodo>, b: Row<Periodo>) {
    a.val.dataInicio >= b.val.dataInicio
  }

  /** ContatoEmergencial: ordering = ['orgao']. */
  predicate ContatoOrder(a: Row<ContatoEmergencial>, b: Row<ContatoEmergencial>) {
    LexLe(a.val.orgao, b.val.orgao)
  }

  lemma DefaultOrderingsArePreorders()
    ensures TotalPreorder(SecretariaOrder)
    ensures TotalPreorder(PlantonistaOrder)
    ensures TotalPreorder(PeriodoOrder)
    ensures TotalPreorder(ContatoOrder)
  {
    forall a: Row<Secretaria>, b: Row<Secretaria> ensures SecretariaOrder(a, b) || SecretariaOrder(b, a) {
      LexLeTotal(a.val.nome, b.val.nome);
    }
    forall a: Row<Secretaria>, b: Row<Secretaria>, c: Row<Secretaria> | SecretariaOrder(a, b) && SecretariaOrder(b, c)
      ensures SecretariaOrder(a, c)
    {
      LexLeTransitive(a.val.nome, b.val.nome, c.val.nome);
    }
    forall a: Row<Plantonista>, b: Row<Plantonista> ensures PlantonistaOrder(a, b) || PlantonistaOrder(b, a) {
      LexLeTotal(a.val.nomeCompleto, b.val.nomeCompleto);
    }
    forall a: Row<Plantonista>, b: Row<Plantonista>, c: Row<Plantonista> | PlantonistaOrder(a, b) && PlantonistaOrder(b, c)
      ensures PlantonistaOrder(a, c)
    {
      LexLeTransitive(a.val.nomeCompleto, b.val.nomeCompleto, c.val.nomeCompleto);
    }
    forall a: Row<ContatoEmergencial>, b: Row<ContatoEmergencial> ensures ContatoOrder(a, b) || ContatoOrder(b, a) {
      LexLeTotal(a.val.orgao, b.val.orgao);
    }
    forall a: Row<ContatoEmergencial>, b: Row<ContatoEmergencial>, c: Row<ContatoEmergencial> | ContatoOrder(a, b) && ContatoOrder(b, c)
      ensures ContatoOrder(a, c)
    {
      LexLeTransitive(a.val.orgao, b.val.orgao, c.val.orgao);
    }
  }

  // The declared uniqueness rules, over one table.

  ghost predicate UniqueNomes(t: map<Id, Secretaria>) {
    forall j, k :: j in t && k in t && t[j].nome == t[k].nome ==> j == k
  }

  ghost predicate UniqueOrgaos(t: map<Id, ContatoEmergencial>) {
    forall j, k :: j in t && k in t && t[j].orgao == t[k].orgao ==> j == k
  }

  ghost predicate UniquePairs(t: map<Id, Escala>) {
    forall j, k :: j in t && k in t && t[j].plantonista == t[k].plantonista && t[j].periodo == t[k].periodo ==> j == k
  }

  /** OneToOneField: a non-null account is linked to at most one plantonista. */
  ghost predicate UniqueUsuarios(t: map<Id, Plantonista>) {
    forall j, k :: j in t && k in t && t[j].usuario.Some? && t[j].usuario == t[k].usuario ==> j == k
  }

  predicate NomeInUse(t: map<Id, Secretaria>, nome: string) {
    exists k :: k in t && t[k].nome == nome
  }

  predicate OrgaoInUse(t: map<Id, ContatoEmergencial>, orgao: string) {
    exists k :: k in t && t[k].orgao == orgao
  }

  predicate PairInUse(t: map<Id, Escala>, plantonista: Id, periodo: Id) {
    exists k :: k in t && t[k].plantonista == plantonista && t[k].periodo == periodo
  }

  predicate UsuarioInUse(t: map<Id, Plantonista>, u: Id) {
    exists k :: k in t && t[k].usuario == Some(u)
  }

  /** The plantonistas of secretaria `s` (related_name "plantonistas"). */
  function PlantonistasOf(t: map<Id, Plantonista>, s: Id): set<Id> {
    set k | k in t && t[k].secretaria == s
  }

  /** The escalas that reference one of `plantonistas` or one of `periodos`. */
  function EscalasReferencing(t: map<Id, Escala>, plantonistas: set<Id>, periodos: set<Id>): set<Id> {
    set k | k in t && (t[k].plantonista in plantonistas || t[k].periodo in periodos)
  }

  /** on_delete=SET_NULL for the account `u`. */
  function Unlinked(p: Plantonista, u: Id): Plantonista {
    if p.usuario == Some(u) then p.(usuario := None) else p
  }

  /** Adding escala `e` under a fresh key adds exactly its pair. */
  lemma PairsAfterInsert(t: map<Id, Escala>, key: Id, e: Escala)
    requires key !in t
    ensures forall pl, p :: PairInUse(t[key := e], pl, p) <==>
                              PairInUse(t, pl, p) || (pl == e.plantonista && p == e.periodo)
  {
    var t' := t[key := e];
    forall pl, p ensures PairInUse(t', pl, p) <==> PairInUse(t, pl, p) || (pl == e.plantonista && p == e.periodo) {
      if PairInUse(t, pl, p) {
        var k :| k in t && t[k].plantonista == pl && t[k].periodo == p;
        assert t'[k] == t[k];
      }
      if pl == e.plantonista && p == e.periodo {
        assert t'[key] == e;
      }
    }
  }

  /** The tables of the roster. Keys are handed out from one counter, so a
      deleted key is never reused. */
  class Store {
    var usuarios: set<Id>
    var secretarias: map<Id, Secretaria>
    var plantonistas: map<Id, Plantonista>
    var periodos: map<Id, Periodo>
    var escalas: map<Id, Escala>
    var contatos: map<Id, ContatoEmergencial>
    var nextId: Id

    /** The integrity the schema declares: foreign keys resolve, unique
        columns are unique, and every key was handed out already. */
    ghost predicate Valid()
      reads this
    {
      && (forall k :: k in plantonistas ==> plantonistas[k].secretaria in secretarias)
      && (forall k :: k in plantonistas && plantonistas[k].usuario.Some? ==> plantonistas[k].usuario.value in usuarios)
      && (forall k :: k in escalas ==> escalas[k].plantonista in plantonistas && escalas[k].periodo in periodos)
      && UniqueNomes(secretarias)
      && UniqueOrgaos(contatos)
      && UniquePairs(escalas)
      && UniqueUsuarios(plantonistas)
      && (forall k :: k in usuarios ==> k < nextId)
      && (forall k :: k in secretarias ==> k < nextId)
      && (forall k :: k in plantonistas ==> k < nextId)
      && (forall k :: k in periodos ==> k < nextId)
      && (forall k :: k in escalas ==> k < nextId)
      && (forall k :: k in contatos ==> k < nextId)
    }

    constructor ()
      ensures Valid()
      ensures usuarios == {} && secretarias == map[] && plantonistas == map[]
      ensures periodos == map[] && escalas == map[] && contatos == map[]
    {
      usuarios, secretarias, plantonistas := {}, map[], map[];
      periodos, escalas, contatos := map[], map[], map[];
      nextId := 1;
    }

    /** Periodo.plantonistas_escalados: the plantonistas that have an
        escala for period `p`, derived from the escala rows alone. */
    function PlantonistasEscalados(p: Id): (r: set<Id>)
      reads this
      requires Valid()
      ensures r <= plantonistas.Keys
      ensures forall pl :: pl in r <==> PairInUse(escalas, pl, p)
    {
      set k | k in escalas && escalas[k].periodo == p :: escalas[k].plantonista
    }

    /** Plantonista.periodos_escalados: the reverse side of the same relation. */
    function PeriodosEscalados(pl: Id): (r: set<Id>)
      reads this
      requires Valid()
      ensures r <= periodos.Keys
      ensures forall p :: p in r <==> PairInUse(escalas, pl, p)
    {
      set k | k in escalas && escalas[k].plantonista == pl :: escalas[k].periodo
    }

    /** A new system account (managed by the authentication framework). */
    method InsertUsuario() returns (u: Id)
      requires Valid()
      modifies this`usuarios, this`nextId
      ensures Valid()
      ensures u !in old(usuarios) && usuarios == old(usuarios) + {u}
    {
      u := nextId;
      usuarios := usuarios + {u};
      nextId := nextId + 1;
    }

    method InsertSecretaria(s: Secretaria) returns (r: Saved)
      requires Valid()
      modifies this`secretarias, this`nextId
      ensures Valid()
      ensures r.Rejected? <==> NomeInUse(old(secretarias), s.nome)
      ensures r.Rejected? ==> r.errors == {NomeTaken} && secretarias == old(secretarias) && nextId == old(nextId)
      ensures r.Created? ==> r.id !in old(secretarias) && secretarias == old(secretarias)[r.id := s]
    {
      if NomeInUse(secretarias, s.nome) {
        r := Rejected({NomeTaken});
      } else {
        r := Created(nextId);
        secretarias := secretarias[nextId := s];
        nextId := nextId + 1;
      }
    }

    method InsertPlantonista(p: Plantonista) returns (r: Saved)
      requires Valid()
      modifies this`plantonistas, this`nextId
      ensures Valid()
      ensures r.Rejected? <==>
                p.secretaria !in secretarias ||
                (p.usuario.Some? && (p.usuario.value !in usuarios || UsuarioInUse(old(plantonistas), p.usuario.value)))
      ensures r.Rejected? ==>
                && (NoSuchSecretaria in r.errors <==> p.secretaria !in secretarias)
                && (NoSuchUsuario in r.errors <==> p.usuario.Some? && p.usuario.value !in usuarios)
                && (UsuarioTaken in r.errors <==> p.usuario.Some? && UsuarioInUse(old(plantonistas), p.usuario.value))
                && r.errors <= {NoSuchSecretaria, NoSuchUsuario, UsuarioTaken}
                && plantonistas == old(plantonistas) && nextId == old(nextId)
      ensures r.Created? ==> r.id !in old(plantonistas) && plantonistas == old(plantonistas)[r.id := p]
    {
      var errors: set<Violation> := {};
      if p.secretaria !in secretarias {
        errors := errors + {NoSuchSecretaria};
      }
      if p.usuario.Some? && p.usuario.value !in usuarios {
        errors := errors + {NoSuchUsuario};
      }
      if p.usuario.Some? && UsuarioInUse(plantonistas, p.usuario.value) {
        errors := errors + {UsuarioTaken};
      }
      if errors != {} {
        r := Rejected(errors);
      } else {
        r := Created(nextId);
        plantonistas := plantonistas[nextId := p];
        nextId := nextId + 1;
      }
    }

    /** Any period is accepted, even one that ends before it starts. */
    method InsertPeriodo(p: Periodo) returns (id: Id)
      requires Valid()
      modifies this`periodos, this`nextId
      ensures Valid()
      ensures id !in old(periodos) && periodos == old(periodos)[id := p]
    {
      id := nextId;
      periodos := periodos[id := p];
      nextId := nextId + 1;
    }

    /** Assigns `plantonista` to `periodo`; `agora` is the creation stamp. */
    method InsertEscala(plantonista: Id, periodo: Id, agora: Instant) returns (r: Saved)
      requires Valid()
      modifies this`escalas, this`nextId
      ensures Valid()
      ensures r.Rejected? <==>
                plantonista !in plantonistas || periodo !in periodos || PairInUse(old(escalas), plantonista, periodo)
      ensures r.Rejected? ==>
                && (NoSuchPlantonista in r.errors <==> plantonista !in plantonistas)
                && (NoSuchPeriodo in r.errors <==> periodo !in periodos)
                && (PairTaken in r.errors <==> PairInUse(old(escalas), plantonista, periodo))
                && r.errors <= {NoSuchPlantonista, NoSuchPeriodo, PairTaken}
                && escalas == old(escalas) && nextId == old(nextId)
      ensures r.Created? ==>
                && r.id !in old(escalas)
                && escalas == old(escalas)[r.id := Escala(plantonista, periodo, agora)]
                && PlantonistasEscalados(periodo) == old(PlantonistasEscalados(periodo)) + {plantonista}
    {
      var errors: set<Violation> := {};
      if plantonista !in plantonistas {
        errors := errors + {NoSuchPlantonista};
      }
      if periodo !in periodos {
        errors := errors + {NoSuchPeriodo};
      }
      if PairInUse(escalas, plantonista, periodo) {
        errors := errors + {PairTaken};
      }
      if errors != {} {
        r := Rejected(errors);
      } else {
        ghost var before := PlantonistasEscalados(periodo);
        var key := nextId;
        PairsAfterInsert(escalas, key, Escala(plantonista, periodo, agora));
        r := Created(key);
        escalas := escalas[key := Escala(plantonista, periodo, agora)];
        nextId := nextId + 1;
        assert Valid();
        forall pl ensures pl in PlantonistasEscalados(periodo) <==> pl in before + {plantonista} {
          assert pl in PlantonistasEscalados(periodo) <==> PairInUse(escalas, pl, periodo);
        }
      }
    }

    method InsertContato(c: ContatoEmergencial) returns (r: Saved)
      requires Valid()
      modifies this`contatos, this`nextId
      ensures Valid()
      ensures r.Rejected? <==> OrgaoInUse(old(contatos), c.orgao)
      ensures r.Rejected? ==> r.errors == {OrgaoTaken} && contatos == old(contatos) && nextId == old(nextId)
      ensures r.Created? ==> r.id !in old(contatos) && contatos == old(contatos)[r.id := c]
    {
      if OrgaoInUse(contatos, c.orgao) {
        r := Rejected({OrgaoTaken});
      } else {
        r := Created(nextId);
        contatos := contatos[nextId := c];
        nextId := nextId + 1;
      }
    }

    /** Deleting a secretaria cascades to its plantonistas and on to
        their escalas; periods, contacts and accounts stay. */
    method DeleteSecretaria(s: Id)
      requires Valid()
      modifies this`secretarias, this`plantonistas, this`escalas
      ensures Valid()
      ensures secretarias == old(secretarias) - {s}
      ensures plantonistas == old(plantonistas) - PlantonistasOf(old(plantonistas), s)
      ensures escalas == old(escalas) - EscalasReferencing(old(escalas), PlantonistasOf(old(plantonistas), s), {})
    {
      var gone := PlantonistasOf(plantonistas, s);
      escalas := escalas - EscalasReferencing(escalas, gone, {});
      plantonistas := plantonistas - gone;
      secretarias := secretarias - {s};
    }

    /** Deleting a plantonista cascades to its escalas. */
    method DeletePlantonista(pl: Id)
      requires Valid()
      modifies this`plantonistas, this`escalas
      ensures Valid()
      ensures plantonistas == old(plantonistas) - {pl}
      ensures escalas == old(escalas) - EscalasReferencing(old(escalas), {pl}, {})
    {
      escalas := escalas - EscalasReferencing(escalas, {pl}, {});
      plantonistas := plantonistas - {pl};
    }

    /** Deleting a period cascades to exactly its escalas; every
        plantonista stays, and so do the other periods' assignments. */
    method DeletePeriodo(p: Id)
      requires Valid()
      modifies this`periodos, this`escalas
      ensures Valid()
      ensures periodos == old(periodos) - {p}
      ensures escalas == old(escalas) - EscalasReferencing(old(escalas), {}, {p})
      ensures forall q :: q in periodos ==> PlantonistasEscalados(q) == old(PlantonistasEscalados(q))
    {
      escalas := escalas - EscalasReferencing(escalas, {}, {p});
      periodos := periodos - {p};
      forall q | q in periodos ensures PlantonistasEscalados(q) == old(PlantonistasEscalados(q)) {
        forall pl ensures PairInUse(escalas, pl, q) <==> PairInUse(old(escalas), pl, q) {
          if PairInUse(old(escalas), pl, q) {
            var k :| k in old(escalas) && old(escalas)[k].plantonista == pl && old(escalas)[k].periodo == q;
            assert k in escalas;
          }
        }
      }
    }

    method DeleteEscala(e: Id)
      requires Valid()
      modifies this`escalas
      ensures Valid()
      ensures escalas == old(escalas) - {e}
    {
      escalas := escalas - {e};
    }

    method DeleteContato(c: Id)
      requires Valid()
      modifies this`contatos
      ensures Valid()
      ensures contatos == old(contatos) - {c}
    {
      contatos := contatos - {c};
    }

    /** Deleting an account clears the link of the plantonista that had
        it (on_delete=SET_NULL) and deletes no row. */
    method DeleteUsuario(u: Id)
      requires Valid()
      modifies this`usuarios, this`plantonistas
      ensures Valid()
      ensures usuarios == old(usuarios) - {u}
      ensures plantonistas.Keys == old(plantonistas).Keys
      ensures forall k :: k in plantonistas ==> plantonistas[k] == Unlinked(old(plantonistas)[k], u)
      ensures forall k :: k in plantonistas ==> plantonistas[k].usuario != Some(u)
    {
      ghost var was := plantonistas;
      plantonistas := map k | k in plantonistas :: Unlinked(plantonistas[k], u);
      usuarios := usuarios - {u};
      assert plantonistas.Keys == was.Keys;
      assert forall k :: k in plantonistas ==> plantonistas[k].secretaria == was[k].secretaria;
      assert forall k :: k in plantonistas && plantonistas[k].usuario.Some? ==>
                plantonistas[k].usuario == was[k].usuario && plantonistas[k].usuario.value in usuarios;
      assert UniqueUsuarios(plantonistas);
    }
  }
}
