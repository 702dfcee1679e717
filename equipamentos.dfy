/** The equipment record, the form validation and the pure views and collection updates
    that the registry's operations are built from (AtividadeVue_Equipamentos/main.js). */
module Equipamentos {
  import opened Texto

  datatype Option<T> = None | Some(value: T) {
    function GetOr(default: T): T {
      match this
      case Some(v) => v
      case None => default
    }
  }

  /** One piece of laboratory equipment. The status is a free string, as in the source;
      the application only ever writes Disponivel or Emprestado into it. */
  datatype Equipamento = Equipamento(
    id: string,
    nome: string,
    categoria: string,
    patrimonio: string,
    status: string)

  const Disponivel: string := "disponível"
  const Emprestado: string := "emprestado"

  /** The blank form: every text field empty and the status available. */
  const EquipamentoVazio: Equipamento := Equipamento("", "", "", "", Disponivel)

  // ---------------------------------------------------------------------------------
  // Validation

  /** The three validation flags: true means the field is empty after trimming. */
  datatype Erros = Erros(nome: bool, categoria: bool, patrimonio: bool) {
    predicate Algum() {
      nome || categoria || patrimonio
    }
  }

  /** The flags validarFormulario computes for a draft: a flag is set exactly when its
      field consists of whitespace only. */
  function ErrosDe(d: Equipamento): (e: Erros)
    ensures e.nome <==> EmBranco(d.nome)
    ensures e.categoria <==> EmBranco(d.categoria)
    ensures e.patrimonio <==> EmBranco(d.patrimonio)
  {
    TrimVazioSeEmBranco(d.nome);
    TrimVazioSeEmBranco(d.categoria);
    TrimVazioSeEmBranco(d.patrimonio);
    Erros(Trim(d.nome) == "", Trim(d.categoria) == "", Trim(d.patrimonio) == "")
  }

  /** The computed property formularioValido. */
  predicate FormularioValido(d: Equipamento) {
    Trim(d.nome) != "" && Trim(d.categoria) != "" && Trim(d.patrimonio) != ""
  }

  /** The computed property and the flags always agree: the form is valid exactly when
      no flag is set, that is, when each of the three fields holds a non-whitespace
      character. */
  lemma FormularioValidoSemErros(d: Equipamento)
    ensures FormularioValido(d) <==> !ErrosDe(d).Algum()
    ensures FormularioValido(d) <==> !EmBranco(d.nome) && !EmBranco(d.categoria) && !EmBranco(d.patrimonio)
  {
    TrimVazioSeEmBranco(d.nome);
    TrimVazioSeEmBranco(d.categoria);
    TrimVazioSeEmBranco(d.patrimonio);
  }

  /** The blank form never validates a save. */
  lemma EquipamentoVazioInvalido()
    ensures !FormularioValido(EquipamentoVazio)
    ensures ErrosDe(EquipamentoVazio) == Erros(true, true, true)
  {
  }

  /** The data invariant of the collection: every record passed validation, so its
      name, category and asset tag are non-empty after trimming. */
  predicate TodosValidos(s: seq<Equipamento>) {
    forall i :: 0 <= i < |s| ==> FormularioValido(s[i])
  }

  // ---------------------------------------------------------------------------------
  // Order-preserving subsequences and unique ids

  /** r is obtained from s by deleting some elements and keeping the rest in order. */
  predicate Subsequencia(r: seq<Equipamento>, s: seq<Equipamento>)
    decreases |s|
  {
    if s == [] then r == []
    else (r != [] && r[0] == s[0] && Subsequencia(r[1..], s[1..])) || Subsequencia(r, s[1..])
  }

  /** No two records of s share an id. */
  predicate IdsUnicos(s: seq<Equipamento>) {
    forall i, j :: 0 <= i < j < |s| ==> s[i].id != s[j].id
  }

  /** The id is carried by no record of s. */
  predicate IdLivre(s: seq<Equipamento>, id: string) {
    forall i :: 0 <= i < |s| ==> s[i].id != id
  }

  /** A subsequence of a collection with unique ids has unique ids. */
  lemma {:induction false} SubsequenciaPreservaUnicos(r: seq<Equipamento>, s: seq<Equipamento>)
    requires Subsequencia(r, s) && IdsUnicos(s)
    ensures IdsUnicos(r)
    ensures forall e :: e in r ==> e in s
    decreases |s|
  {
    if s != [] {
      assert IdsUnicos(s[1..]);
      assert forall e :: e in s[1..] ==> e in s;
      if r != [] && r[0] == s[0] && Subsequencia(r[1..], s[1..]) {
        SubsequenciaPreservaUnicos(r[1..], s[1..]);
        assert forall e :: e in r ==> e == r[0] || e in r[1..];
        forall j | 0 < j < |r|
          ensures r[0].id != r[j].id
        {
          assert r[j] == r[1..][j - 1];
          assert r[j] in s[1..];
          var k :| 0 <= k < |s[1..]| && s[1..][k] == r[j];
          assert s[k + 1] == r[j];
        }
      } else {
        SubsequenciaPreservaUnicos(r, s[1..]);
      }
    }
  }

  // ---------------------------------------------------------------------------------
  // The counters

  /** The records of s whose status is exactly st, in their order in s. */
  function ComStatus(s: seq<Equipamento>, st: string): (r: seq<Equipamento>)
    ensures |r| <= |s|
  {
    if s == [] then []
    else (if s[0].status == st then [s[0]] else []) + ComStatus(s[1..], st)
  }

  /** A record is among those counted for st exactly when it is in the collection with
      status st. */
  lemma {:induction false} ComStatusCorreto(s: seq<Equipamento>, st: string)
    ensures forall e :: e in ComStatus(s, st) <==> e in s && e.status == st
    ensures forall e :: multiset(ComStatus(s, st))[e] == if e.status == st then multiset(s)[e] else 0
  {
    if s != [] {
      ComStatusCorreto(s[1..], st);
      assert forall e :: e in s <==> e == s[0] || e in s[1..];
      assert s == [s[0]] + s[1..];
    }
  }

  /** totalEquipamentos */
  function TotalEquipamentos(s: seq<Equipamento>): (n: nat) {
    |s|
  }

  /** totalDisponiveis */
  function TotalDisponiveis(s: seq<Equipamento>): (n: nat) {
    |ComStatus(s, Disponivel)|
  }

  /** totalEmprestados */
  function TotalEmprestados(s: seq<Equipamento>): (n: nat) {
    |ComStatus(s, Emprestado)|
  }

  /** The records kept by ComStatus form an order-preserving subsequence. */
  lemma {:induction false} ComStatusSubsequencia(s: seq<Equipamento>, st: string)
    ensures Subsequencia(ComStatus(s, st), s)
  {
    if s != [] {
      ComStatusSubsequencia(s[1..], st);
      var r := ComStatus(s, st);
      if s[0].status == st {
        assert r[0] == s[0] && r[1..] == ComStatus(s[1..], st);
      } else {
        assert r == ComStatus(s[1..], st);
      }
    }
  }

  /** Two different statuses select disjoint records, so their counts add up to at
      most the length of the collection. */
  lemma {:induction false} StatusDistintosLimitados(s: seq<Equipamento>, a: string, b: string)
    requires a != b
    ensures |ComStatus(s, a)| + |ComStatus(s, b)| <= |s|
  {
    if s != [] {
      StatusDistintosLimitados(s[1..], a, b);
    }
  }

  /** The two status counters never exceed the total. */
  lemma ContadoresLimitados(s: seq<Equipamento>)
    ensures TotalDisponiveis(s) + TotalEmprestados(s) <= TotalEquipamentos(s)
  {
    StatusDistintosLimitados(s, Disponivel, Emprestado);
  }

  /** Appending a record adds it to the count of its own status and to no other. */
  lemma {:induction false} ComStatusAnexo(s: seq<Equipamento>, e: Equipamento, st: string)
    ensures ComStatus(s + [e], st) == ComStatus(s, st) + (if e.status == st then [e] else [])
  {
    if s != [] {
      assert (s + [e])[1..] == s[1..] + [e];
      ComStatusAnexo(s[1..], e, st);
    } else {
      assert [e][1..] == [];
    }
  }

  // ---------------------------------------------------------------------------------
  // The filtered list

  /** The category filter: an empty filter matches everything; otherwise the lowered
      category must contain the lowered filter. */
  predicate CorrespondeCategoria(e: Equipamento, filtroCategoria: string) {
    filtroCategoria == "" || Inclui(Minusculas(e.categoria), Minusculas(filtroCategoria))
  }

  /** The status filter: an empty filter matches everything; otherwise exact equality. */
  predicate CorrespondeStatus(e: Equipamento, filtroStatus: string) {
    filtroStatus == "" || e.status == filtroStatus
  }

  predicate Corresponde(e: Equipamento, filtroCategoria: string, filtroStatus: string) {
    CorrespondeCategoria(e, filtroCategoria) && CorrespondeStatus(e, filtroStatus)
  }

  /** equipamentosFiltrados: the records that pass both filters, in collection order. */
  function Filtrados(s: seq<Equipamento>, filtroCategoria: string, filtroStatus: string): (r: seq<Equipamento>)
    ensures |r| <= |s|
  {
    if s == [] then []
    else
      (if Corresponde(s[0], filtroCategoria, filtroStatus) then [s[0]] else [])
      + Filtrados(s[1..], filtroCategoria, filtroStatus)
  }

  /** filtroAtivo */
  predicate FiltroAtivo(filtroCategoria: string, filtroStatus: string) {
    filtroCategoria != "" || filtroStatus != ""
  }

  /** The filtered list is an order-preserving subsequence of the collection. */
  lemma {:induction false} FiltradosSubsequencia(s: seq<Equipamento>, fc: string, fs: string)
    ensures Subsequencia(Filtrados(s, fc, fs), s)
  {
    if s != [] {
      FiltradosSubsequencia(s[1..], fc, fs);
      var r := Filtrados(s, fc, fs);
      if Corresponde(s[0], fc, fs) {
        assert r[0] == s[0] && r[1..] == Filtrados(s[1..], fc, fs);
      } else {
        assert r == Filtrados(s[1..], fc, fs);
      }
    }
  }

  /** A record is in the filtered list exactly when it is in the collection and passes
      both filters: nothing else gets in and nothing that passes is dropped. */
  lemma {:induction false} FiltradosCorreto(s: seq<Equipamento>, fc: string, fs: string)
    ensures forall e :: e in Filtrados(s, fc, fs) <==> e in s && Corresponde(e, fc, fs)
    ensures forall e :: multiset(Filtrados(s, fc, fs))[e] == if Corresponde(e, fc, fs) then multiset(s)[e] else 0
  {
    if s != [] {
      FiltradosCorreto(s[1..], fc, fs);
      assert forall e :: e in s <==> e == s[0] || e in s[1..];
      assert s == [s[0]] + s[1..];
    }
  }

  /** With no active filter the filtered list is the whole collection, in order. */
  lemma {:induction false} FiltroInativoMostraTudo(s: seq<Equipamento>, fc: string, fs: string)
    requires !FiltroAtivo(fc, fs)
    ensures Filtrados(s, fc, fs) == s
  {
    if s != [] {
      FiltroInativoMostraTudo(s[1..], fc, fs);
    }
  }

  /** A status filter alone selects exactly what the status counter counts. */
  lemma {:induction false} FiltroDeStatusEhContador(s: seq<Equipamento>, st: string)
    requires st != ""
    ensures Filtrados(s, "", st) == ComStatus(s, st)
  {
    if s != [] {
      FiltroDeStatusEhContador(s[1..], st);
    }
  }

  /** The category filter ignores case: lowering the category first changes nothing. */
  lemma CategoriaIgnoraCaixa(e: Equipamento, fc: string)
    ensures CorrespondeCategoria(e.(categoria := Minusculas(e.categoria)), fc) == CorrespondeCategoria(e, fc)
    ensures CorrespondeCategoria(e, Minusculas(fc)) == CorrespondeCategoria(e, fc)
  {
    MinusculasIdempotente(e.categoria);
    MinusculasIdempotente(fc);
    if fc != "" {
      assert Minusculas(fc) != "";
    }
  }

  /** "micro" finds "Microscópio" through the case-insensitive substring match, and does
      not find "Balança". */
  lemma ExemploCategoria(a: Equipamento, b: Equipamento)
    requires a.categoria == "Microscópio" && b.categoria == "Balança"
    ensures Corresponde(a, "micro", "") && !Corresponde(b, "micro", "")
  {
    var m := Minusculas("micro");
    assert m == "micro";
    var ha := Minusculas(a.categoria);
    assert ha[..5] == m;
    OcorreImplicaInclui(ha, m, 0);
    var hb := Minusculas(b.categoria);
    assert hb == "balança";
    assert hb[0..5][0] != m[0] && hb[1..6][0] != m[0] && hb[2..7][0] != m[0];
    assert forall i :: OcorreEm(hb, m, i) ==> i == 0 || i == 1 || i == 2;
    IncluiSeOcorre(hb, m);
  }

  // ---------------------------------------------------------------------------------
  // Update in place (findIndex, then assignment at that index)

  /** findIndex on the id: the first index holding that id, or -1 when there is none. */
  function IndiceDe(s: seq<Equipamento>, id: string): (k: int)
    ensures -1 <= k < |s|
    ensures k >= 0 ==> s[k].id == id && IdLivre(s[..k], id)
    ensures k == -1 <==> IdLivre(s, id)
  {
    if s == [] then -1
    else if s[0].id == id then 0
    else
      var k := IndiceDe(s[1..], id);
      assert forall j :: 0 < j < |s| ==> s[j] == s[1..][j - 1];
      if k == -1 then -1
      else
        assert s[..k + 1] == [s[0]] + s[1..][..k];
        k + 1
  }

  /** With unique ids, the index of a record's id is that record's position. */
  lemma IndiceDeUnico(s: seq<Equipamento>, i: int)
    requires IdsUnicos(s) && 0 <= i < |s|
    ensures IndiceDe(s, s[i].id) == i
  {
    var k := IndiceDe(s, s[i].id);
    assert k != -1 by {
      assert !IdLivre(s, s[i].id);
    }
  }

  /** The collection after the update branch of salvarEquipamento: the first record with
      id gets replaced by the draft d; without such a record nothing changes. */
  function Atualizado(s: seq<Equipamento>, id: string, d: Equipamento): (r: seq<Equipamento>)
    ensures |r| == |s|
    ensures IdLivre(s, id) ==> r == s
    ensures !IdLivre(s, id) ==>
      var k := IndiceDe(s, id);
      r[k] == d && IdLivre(s[..k], id) && forall j :: 0 <= j < |s| && j != k ==> r[j] == s[j]
  {
    var k := IndiceDe(s, id);
    if k == -1 then s else s[k := d]
  }

  /** Replacing a record by a draft that carries the same id keeps every id in place,
      so unique ids stay unique. */
  lemma AtualizadoPreservaUnicos(s: seq<Equipamento>, id: string, d: Equipamento)
    requires IdsUnicos(s) && d.id == id
    ensures forall j :: 0 <= j < |s| ==> Atualizado(s, id, d)[j].id == s[j].id
    ensures IdsUnicos(Atualizado(s, id, d))
  {
  }

  /** Editing the record at position i and saving a draft that kept its id puts the
      draft at position i, with that id, and leaves the other records alone. */
  lemma EditarESalvarMantemId(s: seq<Equipamento>, i: int, d: Equipamento)
    requires IdsUnicos(s) && 0 <= i < |s| && d.id == s[i].id
    ensures Atualizado(s, s[i].id, d) == s[i := d]
    ensures Atualizado(s, s[i].id, d)[i].id == s[i].id
  {
    IndiceDeUnico(s, i);
  }

  /** Replacing a record by a valid draft keeps every record valid. */
  lemma AtualizadoPreservaValidos(s: seq<Equipamento>, id: string, d: Equipamento)
    requires TodosValidos(s) && FormularioValido(d)
    ensures TodosValidos(Atualizado(s, id, d))
  {
    var r := Atualizado(s, id, d);
    forall j | 0 <= j < |r|
      ensures FormularioValido(r[j])
    {
      if !IdLivre(s, id) && j != IndiceDe(s, id) {
        assert r[j] == s[j];
      }
    }
  }

  /** Appending a valid record keeps every record valid. */
  lemma AnexarPreservaValidos(s: seq<Equipamento>, e: Equipamento)
    requires TodosValidos(s) && FormularioValido(e)
    ensures TodosValidos(s + [e])
  {
    ValidosConcat(s, [e]);
  }

  /** Appending a record whose id is free keeps the ids unique. */
  lemma AnexarPreservaUnicos(s: seq<Equipamento>, e: Equipamento)
    requires IdsUnicos(s) && IdLivre(s, e.id)
    ensures IdsUnicos(s + [e])
  {
  }

  // ---------------------------------------------------------------------------------
  // Removal (filter on the id)

  /** removerEquipamento's filter: every record whose id differs, in order. */
  function SemId(s: seq<Equipamento>, id: string): (r: seq<Equipamento>)
    ensures |r| <= |s|
  {
    if s == [] then []
    else (if s[0].id != id then [s[0]] else []) + SemId(s[1..], id)
  }

  /** A record survives the removal exactly when it is in the collection and its id
      differs. */
  lemma {:induction false} SemIdCorreto(s: seq<Equipamento>, id: string)
    ensures forall e :: e in SemId(s, id) <==> e in s && e.id != id
    ensures forall e :: multiset(SemId(s, id))[e] == if e.id != id then multiset(s)[e] else 0
  {
    if s != [] {
      SemIdCorreto(s[1..], id);
      assert forall e :: e in s <==> e == s[0] || e in s[1..];
      assert s == [s[0]] + s[1..];
    }
  }

  /** The removal keeps the survivors in their order. */
  lemma {:induction false} SemIdSubsequencia(s: seq<Equipamento>, id: string)
    ensures Subsequencia(SemId(s, id), s)
  {
    if s != [] {
      SemIdSubsequencia(s[1..], id);
      var r := SemId(s, id);
      if s[0].id != id {
        assert r[0] == s[0] && r[1..] == SemId(s[1..], id);
      } else {
        assert r == SemId(s[1..], id);
      }
    }
  }

  /** Removing an absent id changes nothing. */
  lemma {:induction false} SemIdAusente(s: seq<Equipamento>, id: string)
    requires IdLivre(s, id)
    ensures SemId(s, id) == s
  {
    if s != [] {
      SemIdAusente(s[1..], id);
    }
  }

  /** The removal filter distributes over concatenation. */
  lemma {:induction false} SemIdConcat(a: seq<Equipamento>, b: seq<Equipamento>, id: string)
    ensures SemId(a + b, id) == SemId(a, id) + SemId(b, id)
  {
    if a != [] {
      assert (a + b)[1..] == a[1..] + b;
      SemIdConcat(a[1..], b, id);
    } else {
      assert a + b == b;
    }
  }

  /** Removing the id of a record surrounded by records with other ids leaves exactly
      the surrounding records. */
  lemma SemIdRemoveUm(antes: seq<Equipamento>, x: Equipamento, depois: seq<Equipamento>)
    requires IdLivre(antes, x.id) && IdLivre(depois, x.id)
    ensures SemId(antes + [x] + depois, x.id) == antes + depois
  {
    SemIdConcat(antes + [x], depois, x.id);
    SemIdConcat(antes, [x], x.id);
    SemIdAusente(antes, x.id);
    SemIdAusente(depois, x.id);
    assert SemId([x], x.id) == [];
  }

  /** With unique ids, the id of the record at position i is held by no other record. */
  lemma IdsUnicosFatias(s: seq<Equipamento>, i: int)
    requires IdsUnicos(s) && 0 <= i < |s|
    ensures IdLivre(s[..i], s[i].id) && IdLivre(s[i + 1..], s[i].id)
  {
    var depois := s[i + 1..];
    forall j | 0 <= j < |depois|
      ensures depois[j].id != s[i].id
    {
      assert depois[j] == s[i + 1 + j];
    }
  }

  /** With unique ids, removing the id of the record at position i removes exactly that
      record. */
  lemma SemIdUnico(s: seq<Equipamento>, i: int)
    requires IdsUnicos(s) && 0 <= i < |s|
    ensures SemId(s, s[i].id) == s[..i] + s[i + 1..]
    ensures |SemId(s, s[i].id)| == |s| - 1
  {
    IdsUnicosFatias(s, i);
    assert s == s[..i] + [s[i]] + s[i + 1..];
    SemIdRemoveUm(s[..i], s[i], s[i + 1..]);
  }

  /** Two collections of valid records concatenate to one. */
  lemma ValidosConcat(a: seq<Equipamento>, b: seq<Equipamento>)
    requires TodosValidos(a) && TodosValidos(b)
    ensures TodosValidos(a + b)
  {
    forall j | 0 <= j < |a + b|
      ensures FormularioValido((a + b)[j])
    {
      if j < |a| {
        assert (a + b)[j] == a[j];
      } else {
        assert (a + b)[j] == b[j - |a|];
      }
    }
  }

  /** Removal only drops records, so every record that remains is still valid. */
  lemma {:induction false} SemIdPreservaValidos(s: seq<Equipamento>, id: string)
    requires TodosValidos(s)
    ensures TodosValidos(SemId(s, id))
  {
    if s != [] {
      var cauda := s[1..];
      assert forall j :: 0 <= j < |cauda| ==> cauda[j] == s[j + 1];
      SemIdPreservaValidos(cauda, id);
      ValidosConcat(if s[0].id != id then [s[0]] else [], SemId(cauda, id));
    }
  }

  /** Removal keeps unique ids unique. */
  lemma SemIdPreservaUnicos(s: seq<Equipamento>, id: string)
    requires IdsUnicos(s)
    ensures IdsUnicos(SemId(s, id))
  {
    SemIdSubsequencia(s, id);
    SubsequenciaPreservaUnicos(SemId(s, id), s);
  }
}
