/** The state and the operations of the equipment registry application: the reactive
    references of setup() are the fields of class Registro, and each handler is a method
    that changes only the fields the handler writes (AtividadeVue_Equipamentos/main.js). */
module Aplicacao {
  import opened Texto
  import opened Equipamentos

  class Registro {
    /** The ordered collection of records (insertion order is display order). */
    var equipamentos: seq<Equipamento>
    /** The edit session: whether a record is being edited and, if so, its id. */
    var editando: bool
    var idEditando: Option<string>
    /** The draft bound to the form. */
    var equipamentoAtual: Equipamento
    /** The validation flags shown next to the form fields. */
    var erroNome: bool
    var erroCategoria: bool
    var erroPatrimonio: bool
    /** The filter inputs. */
    var filtroCategoria: string
    var filtroStatus: string
    /** What the browser's storage holds under the key 'equipamentos-laboratorio'
        (None when the key is absent). */
    var armazenado: Option<seq<Equipamento>>

    /** The session is Editing exactly when an id is being edited, and the stored copy
        always matches the collection in memory. */
    predicate Valid()
      reads this
    {
      (editando <==> idEditando.Some?) && armazenado.GetOr([]) == equipamentos
    }

    /** setup(): the initial references, then carregarDoLocalStorage, which loads the
        stored collection when there is one and otherwise starts with none. */
    constructor (guardado: Option<seq<Equipamento>>)
      ensures Valid()
      ensures equipamentos == guardado.GetOr([]) && armazenado == guardado
      ensures !editando && idEditando == None && equipamentoAtual == EquipamentoVazio
      ensures !erroNome && !erroCategoria && !erroPatrimonio
      ensures filtroCategoria == "" && filtroStatus == ""
    {
      editando := false;
      idEditando := None;
      equipamentoAtual := EquipamentoVazio;
      erroNome, erroCategoria, erroPatrimonio := false, false, false;
      filtroCategoria, filtroStatus := "", "";
      armazenado := guardado;
      equipamentos := if guardado.Some? then guardado.value else [];
    }

    // -------------------------------------------------------------------------------
    // Computed properties

    function FormularioValido(): (r: bool)
      reads this
    {
      Equipamentos.FormularioValido(equipamentoAtual)
    }

    function TotalEquipamentos(): (n: nat)
      reads this
    {
      Equipamentos.TotalEquipamentos(equipamentos)
    }

    function TotalDisponiveis(): (n: nat)
      reads this
    {
      Equipamentos.TotalDisponiveis(equipamentos)
    }

    function TotalEmprestados(): (n: nat)
      reads this
    {
      Equipamentos.TotalEmprestados(equipamentos)
    }

    function EquipamentosFiltrados(): (r: seq<Equipamento>)
      reads this
    {
      Filtrados(equipamentos, filtroCategoria, filtroStatus)
    }

    function FiltroAtivo(): (r: bool)
      reads this
    {
      Equipamentos.FiltroAtivo(filtroCategoria, filtroStatus)
    }

    // -------------------------------------------------------------------------------
    // Handlers

    /** salvarNoLocalStorage: the stored value is overwritten with the whole collection. */
    method SalvarNoLocalStorage()
      modifies this`armazenado
      ensures armazenado == Some(equipamentos)
    {
      armazenado := Some(equipamentos);
    }

    /** validarFormulario: each flag is set exactly when its field is whitespace only,
        and the answer is "no flag set", which is the computed formularioValido. */
    method ValidarFormulario() returns (valido: bool)
      modifies this`erroNome, this`erroCategoria, this`erroPatrimonio
      ensures Erros(erroNome, erroCategoria, erroPatrimonio) == ErrosDe(equipamentoAtual)
      ensures erroNome <==> EmBranco(equipamentoAtual.nome)
      ensures erroCategoria <==> EmBranco(equipamentoAtual.categoria)
      ensures erroPatrimonio <==> EmBranco(equipamentoAtual.patrimonio)
      ensures valido <==> !erroNome && !erroCategoria && !erroPatrimonio
      ensures valido == FormularioValido()
    {
      var d := equipamentoAtual;
      valido := true;
      erroNome := Trim(d.nome) == "";
      erroCategoria := Trim(d.categoria) == "";
      erroPatrimonio := Trim(d.patrimonio) == "";
      if erroNome || erroCategoria || erroPatrimonio {
        valido := false;
      }
      assert Erros(erroNome, erroCategoria, erroPatrimonio) == ErrosDe(d);
    }

    /** resetarFormulario: the blank draft and no flag set. */
    method ResetarFormulario()
      modifies this`equipamentoAtual, this`erroNome, this`erroCategoria, this`erroPatrimonio
      ensures equipamentoAtual == EquipamentoVazio
      ensures !erroNome && !erroCategoria && !erroPatrimonio
    {
      equipamentoAtual := EquipamentoVazio;
      erroNome := false;
      erroCategoria := false;
      erroPatrimonio := false;
    }

    /** salvarEquipamento, with the id that gerarIdUnico would produce passed in as novoId.
        An invalid draft changes nothing but the flags. A valid one either replaces the
        record being edited (Editing) or is appended with the new id (Idle); then the
        session is Idle, the form blank and the collection stored. */
    method SalvarEquipamento(novoId: string)
      requires Valid()
      modifies this`equipamentos, this`editando, this`idEditando, this`equipamentoAtual,
        this`erroNome, this`erroCategoria, this`erroPatrimonio, this`armazenado
      ensures Valid()
      ensures !Equipamentos.FormularioValido(old(equipamentoAtual)) ==>
        && equipamentos == old(equipamentos)
        && editando == old(editando) && idEditando == old(idEditando)
        && equipamentoAtual == old(equipamentoAtual)
        && armazenado == old(armazenado)
        && Erros(erroNome, erroCategoria, erroPatrimonio) == ErrosDe(old(equipamentoAtual))
      ensures Equipamentos.FormularioValido(old(equipamentoAtual)) && old(editando) ==>
        equipamentos == Atualizado(old(equipamentos), old(idEditando).value, old(equipamentoAtual))
      ensures Equipamentos.FormularioValido(old(equipamentoAtual)) && !old(editando) ==>
        equipamentos == old(equipamentos) + [old(equipamentoAtual).(id := novoId)]
      ensures Equipamentos.FormularioValido(old(equipamentoAtual)) ==>
        && !editando && idEditando == None
        && equipamentoAtual == EquipamentoVazio
        && !erroNome && !erroCategoria && !erroPatrimonio
        && armazenado == Some(equipamentos)
      ensures
        && IdsUnicos(old(equipamentos))
        && (old(editando) ==> old(idEditando) == Some(old(equipamentoAtual).id))
        && (!old(editando) ==> IdLivre(old(equipamentos), novoId))
        ==> IdsUnicos(equipamentos)
      ensures TodosValidos(old(equipamentos)) ==> TodosValidos(equipamentos)
    {
      var valido := ValidarFormulario();
      if !valido {
        return;
      }
      if editando {
        if IdsUnicos(equipamentos) && idEditando == Some(equipamentoAtual.id) {
          AtualizadoPreservaUnicos(equipamentos, equipamentoAtual.id, equipamentoAtual);
        }
        if TodosValidos(equipamentos) {
          AtualizadoPreservaValidos(equipamentos, idEditando.value, equipamentoAtual);
        }
        var index := IndiceDe(equipamentos, idEditando.value);
        if index != -1 {
          equipamentos := equipamentos[index := equipamentoAtual];
        }
        editando := false;
        idEditando := None;
      } else {
        var novoEquipamento := equipamentoAtual.(id := novoId);
        if TodosValidos(equipamentos) {
          AnexarPreservaValidos(equipamentos, novoEquipamento);
        }
        equipamentos := equipamentos + [novoEquipamento];
      }
      ResetarFormulario();
      SalvarNoLocalStorage();
    }

    /** editarEquipamento: the draft becomes a copy of the record and the session is
        Editing that record's id. */
    method EditarEquipamento(equipamento: Equipamento)
      requires Valid()
      modifies this`equipamentoAtual, this`editando, this`idEditando
      ensures Valid()
      ensures equipamentoAtual == equipamento
      ensures editando && idEditando == Some(equipamento.id)
    {
      equipamentoAtual := equipamento;
      editando := true;
      idEditando := Some(equipamento.id);
    }

    /** cancelarEdicao: back to Idle with a blank form; the collection is not touched. */
    method CancelarEdicao()
      requires Valid()
      modifies this`editando, this`idEditando, this`equipamentoAtual,
        this`erroNome, this`erroCategoria, this`erroPatrimonio
      ensures Valid()
      ensures !editando && idEditando == None
      ensures equipamentoAtual == EquipamentoVazio
      ensures !erroNome && !erroCategoria && !erroPatrimonio
      ensures equipamentos == old(equipamentos) && armazenado == old(armazenado)
    {
      editando := false;
      idEditando := None;
      ResetarFormulario();
    }

    /** removerEquipamento, with the user's answer to the confirmation prompt passed in:
        on confirmation every record with that id goes and the collection is stored;
        otherwise nothing changes. */
    method RemoverEquipamento(id: string, confirmado: bool)
      requires Valid()
      modifies this`equipamentos, this`armazenado
      ensures Valid()
      ensures confirmado ==> equipamentos == SemId(old(equipamentos), id) && armazenado == Some(equipamentos)
      ensures !confirmado ==> equipamentos == old(equipamentos) && armazenado == old(armazenado)
      ensures TodosValidos(old(equipamentos)) ==> TodosValidos(equipamentos)
    {
      if confirmado {
        if TodosValidos(equipamentos) {
          SemIdPreservaValidos(equipamentos, id);
        }
        equipamentos := SemId(equipamentos, id);
        SalvarNoLocalStorage();
      }
    }
  }

  /** Scenario, with assertions Dafny verifies: adding a microscope to an empty registry
      counts one available record and none on loan. */
  method CenarioAdicionar() {
    var r := new Registro(None);
    assert r.TotalEquipamentos() == 0;
    var rascunho := EquipamentoVazio.(nome := "Microscope", categoria := "Optics", patrimonio := "PAT-001");
    assert Equipamentos.FormularioValido(rascunho);
    r.equipamentoAtual := rascunho;
    r.SalvarEquipamento("id-1");
    assert r.equipamentos == [rascunho.(id := "id-1")];
    assert r.TotalEquipamentos() == 1 && r.TotalDisponiveis() == 1 && r.TotalEmprestados() == 0;
  }

  /** Scenario, with assertions Dafny verifies: editing that record to put it on loan
      moves it from one counter to the other, keeps its id and leaves the session Idle. */
  method CenarioEmprestar() {
    var microscopio := Equipamento("id-1", "Microscope", "Optics", "PAT-001", Disponivel);
    var r := new Registro(Some([microscopio]));
    r.EditarEquipamento(microscopio);
    var emprestado := microscopio.(status := Emprestado);
    assert Equipamentos.FormularioValido(emprestado);
    r.equipamentoAtual := emprestado;
    r.SalvarEquipamento("id-2");
    assert IndiceDe([microscopio], "id-1") == 0;
    assert r.equipamentos == [emprestado] && !r.editando;
    assert r.TotalEquipamentos() == 1 && r.TotalDisponiveis() == 0 && r.TotalEmprestados() == 1;
  }

  /** Scenario, with assertions Dafny verifies: reload a stored collection, then remove
      its record, first without and then with confirmation. */
  method CenarioRecarregarERemover() {
    var emprestado := Equipamento("id-1", "Microscope", "Optics", "PAT-001", Emprestado);
    var r := new Registro(Some([emprestado]));
    var recarregado := new Registro(r.armazenado);
    assert recarregado.equipamentos == r.equipamentos == [emprestado];

    r.RemoverEquipamento("id-1", false);
    assert r.TotalEquipamentos() == 1;
    r.RemoverEquipamento("id-1", true);
    assert r.TotalEquipamentos() == 0;
  }
}
