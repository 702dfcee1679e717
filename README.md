# Laboratory equipment registry — a Dafny model

The application is a single-page inventory of laboratory equipment written with Vue
(`AtividadeVue_Equipamentos/main.js`). Everything it does happens inside `setup()`:

- a list of records (`equipamentos`);
- an edit session (`editando`, `idEditando`);
- the draft bound to the form (`equipamentoAtual`);
- three validation flags (`erroNome`, `erroCategoria`, `erroPatrimonio`);
- two filter inputs (`filtroCategoria`, `filtroStatus`).

The handlers validate the form, save a record (append or update in place), start or
cancel an edit, remove a record and reset the form. Computed properties give the
counters, the filtered list and whether a filter is active. After each valid save and
each confirmed removal, the collection is written to the browser's storage. A save whose
draft fails validation returns before writing anything.

The model has three modules:

- `Texto` (`texto.dfy`) covers the three JavaScript string operations the application
  uses. `Trim` strips ECMAScript's WhiteSpace and LineTerminator characters. `Minusculas`
  is `toLowerCase`, limited to the ASCII and Latin-1 capitals. `Inclui` is `includes`.
  Lemmas characterise each of them. The functions are `Trim` (`trim`, used in
  `validarFormulario` and `formularioValido`, lines 50-52 and 62-64), `Minusculas`
  (`toLowerCase`, line 80) and `Inclui` (`includes`, line 80).
- `Equipamentos` (`equipamentos.dfy`) holds the record datatype, the blank draft,
  validation and the computed views. It also holds the two collection updates:
  `findIndex` followed by an index assignment (`Atualizado`), and the removal filter
  (`SemId`). Beside each one are lemmas that relate it to an independent description:
  a subsequence relation, a syntactic occurrence of the needle, or id uniqueness.
  The functions that compute the code are:
  - `FormularioValido` is the computed `formularioValido` (lines 61-65). `ErrosDe` gives the flags of `validarFormulario` (lines 50-52).
  - `ComStatus` is the status filter behind the counters. `TotalEquipamentos`, `TotalDisponiveis` and `TotalEmprestados` are the three counters (lines 68-74).
  - `Filtrados` is `equipamentosFiltrados` (lines 77-87), and `FiltroAtivo` is `filtroAtivo` (lines 90-92).
  - `IndiceDe` is the `findIndex` of line 102. `Atualizado` is the update on lines 102-105.
  - `SemId` is the removal filter of line 143.
  - `TodosValidos` is the data invariant of the collection: every record passed validation.
- `Aplicacao` (`registro.dfy`) is the class `Registro`, whose fields are the reactive
  references. Each handler is a method whose `modifies` clause names exactly the fields
  that handler writes. Each method's `ensures` gives the whole new state in terms of the
  old one. `Valid()` holds throughout. It says that the session is Editing exactly when
  an id is held. It also says that the stored copy always equals the collection in
  memory, so reloading from storage gives back the same collection.
  `FormularioValido`, `TotalEquipamentos`, `TotalDisponiveis`, `TotalEmprestados`,
  `EquipamentosFiltrados` and `FiltroAtivo` of `Registro` are the computed properties,
  read from the fields. Three scenario methods, with assertions Dafny verifies, follow
  the counters step by step. `CenarioAdicionar` adds a
  microscope. `CenarioEmprestar` lends it through an edit. `CenarioRecarregarERemover`
  reloads it from storage and removes it.

Behaviour of the code that may be surprising:

- `removerEquipamento` keeps every record whose id differs (line 143). It therefore
  removes all records with that id, not only the first. `SemIdUnico` shows that with
  unique ids this is exactly the one record.
- `editarEquipamento` receives the record itself, not an id, and does no lookup
  (lines 125-128).
- The status is a free string. Only `'disponível'` and `'emprestado'` are counted.
- An update stores the draft as it is, including the draft's own `id` field (line 104).
  The id survives the update because `editarEquipamento` copied the record's id into the
  draft, assuming the form has no input bound to `id`. `EditarESalvarMantemId` and the last
  `ensures` of `SalvarEquipamento` state this condition. If something reset the draft
  during an edit (`resetarFormulario` is exported to the template), the updated record
  would be stored with the blank id `''`.

## Model

| member | source | states |
|---|---|---|
| `Texto.TrimInicioCorreto` | AtividadeVue_Equipamentos/main.js:50-52 | The leading part `trim` drops is all whitespace; what remains is a suffix of the input and does not start with whitespace. |
| `Texto.TrimFimCorreto` | AtividadeVue_Equipamentos/main.js:50-52 | The trailing part `trim` drops is all whitespace; what remains is a prefix and does not end with whitespace. |
| `Texto.TrimCorreto` | AtividadeVue_Equipamentos/main.js:62-64 | `trim` returns a contiguous piece of the input, reached by dropping only whitespace at both ends, and that piece has no whitespace at either end. |
| `Texto.TrimVazioSeEmBranco` | AtividadeVue_Equipamentos/main.js:50-52 | `s.trim()` is empty if and only if every character of `s` is whitespace. |
| `Texto.MinusculasIdempotente` | AtividadeVue_Equipamentos/main.js:80 | Lowering twice is the same as lowering once. |
| `Texto.IncluiSeOcorre` | AtividadeVue_Equipamentos/main.js:80 | `h.includes(n)` holds if and only if there is an index at which `n` occurs as a contiguous piece of `h`. |
| `Equipamentos.ErrosDe` | AtividadeVue_Equipamentos/main.js:50-52 | Each validation flag is set exactly when its field (name, category, asset tag) is whitespace only. |
| `Equipamentos.FormularioValidoSemErros` | AtividadeVue_Equipamentos/main.js:48-65 | `formularioValido` holds if and only if no flag of `validarFormulario` is set, that is, if and only if each of the three fields contains a non-whitespace character. |
| `Equipamentos.EquipamentoVazioInvalido` | AtividadeVue_Equipamentos/main.js:149-156 | The blank draft sets all three flags and is never valid. |
| `Equipamentos.ComStatusCorreto` | AtividadeVue_Equipamentos/main.js:69-74 | A record is among those a counter counts if and only if it is in the collection and its status equals the counted one exactly; it is counted as many times as it occurs in the collection (and not at all with another status). |
| `Equipamentos.ComStatusSubsequencia` | AtividadeVue_Equipamentos/main.js:69-74 | The records the counters count form an order-preserving subsequence of the collection. |
| `Equipamentos.ContadoresLimitados` | AtividadeVue_Equipamentos/main.js:68-74 | `totalDisponiveis + totalEmprestados <= totalEquipamentos`. |
| `Equipamentos.ComStatusAnexo` | AtividadeVue_Equipamentos/main.js:69-74 | Appending a record (as the add branch of a save does) adds it to its own status's count and leaves the other counts alone. |
| `Equipamentos.FiltradosSubsequencia` | AtividadeVue_Equipamentos/main.js:77-87 | The filtered list is an order-preserving subsequence of the collection. |
| `Equipamentos.FiltradosCorreto` | AtividadeVue_Equipamentos/main.js:77-87 | A record is in `equipamentosFiltrados` if and only if it is in the collection and passes both filters. The category filter is a case-insensitive substring match and the status filter an exact match; an empty filter matches every record. A passing record appears as many times as in the collection. |
| `Equipamentos.FiltroInativoMostraTudo` | AtividadeVue_Equipamentos/main.js:77-92 | When `filtroAtivo` is false (both filters empty), the filtered list is the whole collection in its order. |
| `Equipamentos.FiltroDeStatusEhContador` | AtividadeVue_Equipamentos/main.js:69-84 | A non-empty status filter with no category filter selects exactly the records that the counter for that status counts. |
| `Equipamentos.CategoriaIgnoraCaixa` | AtividadeVue_Equipamentos/main.js:79-81 | The category match ignores case: lowering the record's category or the filter first does not change it. |
| `Equipamentos.ExemploCategoria` | AtividadeVue_Equipamentos/main.js:79-81 | The filter `"micro"` matches the category `"Microscópio"` and does not match `"Balança"`. |
| `Equipamentos.IndiceDe` | AtividadeVue_Equipamentos/main.js:102 | `findIndex` on the id gives the first index holding the id (no earlier index holds it), or -1 exactly when no record holds it. |
| `Equipamentos.IndiceDeUnico` | AtividadeVue_Equipamentos/main.js:102 | With unique ids, the index found for a record's id is that record's own position. |
| `Equipamentos.Atualizado` | AtividadeVue_Equipamentos/main.js:102-105 | The update keeps the length; it puts the draft at the first index holding the id and changes nothing else; without such an index the collection is unchanged. |
| `Equipamentos.AtualizadoPreservaUnicos` | AtividadeVue_Equipamentos/main.js:102-105 | Replacing with a draft that carries the edited id keeps every position's id and so keeps ids unique. |
| `Equipamentos.EditarESalvarMantemId` | AtividadeVue_Equipamentos/main.js:100-105 | After editing the record at position i, saving a draft that kept its id replaces exactly position i, and the id there is unchanged. |
| `Equipamentos.AtualizadoPreservaValidos` | AtividadeVue_Equipamentos/main.js:95-105 | The update stores only a draft that passed validation, so a collection of valid records (every name, category and asset tag non-empty after trim) stays valid. |
| `Equipamentos.AnexarPreservaValidos` | AtividadeVue_Equipamentos/main.js:95-114 | Appending a draft that passed validation keeps every record of the collection valid. |
| `Equipamentos.AnexarPreservaUnicos` | AtividadeVue_Equipamentos/main.js:110-114 | Appending a record with a fresh id keeps ids unique. |
| `Equipamentos.SemIdCorreto` | AtividadeVue_Equipamentos/main.js:143 | A record survives the removal if and only if it is in the collection and its id differs from the removed one; each survivor keeps its number of occurrences. |
| `Equipamentos.SemIdSubsequencia` | AtividadeVue_Equipamentos/main.js:143 | The records that remain keep their relative order. |
| `Equipamentos.SemIdAusente` | AtividadeVue_Equipamentos/main.js:141-146 | Removing an id that no record holds leaves the collection unchanged. |
| `Equipamentos.SemIdUnico` | AtividadeVue_Equipamentos/main.js:143 | With unique ids, removing the id of the record at position i gives `s[..i] + s[i+1..]`, one record shorter. |
| `Equipamentos.SemIdPreservaValidos` | AtividadeVue_Equipamentos/main.js:143 | Removal only drops records, so a collection of valid records stays valid. |
| `Equipamentos.SemIdPreservaUnicos` | AtividadeVue_Equipamentos/main.js:143 | Removal keeps unique ids unique. |
| `Equipamentos.SubsequenciaPreservaUnicos` | AtividadeVue_Equipamentos/main.js:143 | Any order-preserving subsequence of a collection with unique ids has unique ids and only records from that collection. |
| `Aplicacao.Registro.constructor` | AtividadeVue_Equipamentos/main.js:7-40 | The initial state is Idle, with a blank draft, no flags and empty filters; the collection is the stored one, or empty when nothing is stored (line 163). |
| `Aplicacao.Registro.SalvarNoLocalStorage` | AtividadeVue_Equipamentos/main.js:43-45 | The store then holds the whole current collection. |
| `Aplicacao.Registro.ValidarFormulario` | AtividadeVue_Equipamentos/main.js:48-58 | Each flag is set exactly when its field is whitespace only; the result is "no flag set" and always equals `formularioValido`; only the flags change. |
| `Aplicacao.Registro.ResetarFormulario` | AtividadeVue_Equipamentos/main.js:149-160 | The draft becomes the blank record with status `'disponível'`, and all three flags are cleared. |
| `Aplicacao.Registro.SalvarEquipamento` | AtividadeVue_Equipamentos/main.js:95-122 | An invalid draft changes nothing except the flags, which then show the failing fields. A valid draft while Editing gives the collection `Atualizado(old, idEditando, draft)`. A valid draft while Idle appends exactly the draft with the supplied id. After any valid save, the session is Idle, the form is blank, the flags are clear and the store holds the collection. Unique ids stay unique when the new id is fresh and the draft kept the edited id. A collection of valid records stays valid. |
| `Aplicacao.Registro.EditarEquipamento` | AtividadeVue_Equipamentos/main.js:125-128 | The draft becomes a copy of the record, and the session is Editing that record's id; the collection is not touched. |
| `Aplicacao.Registro.CancelarEdicao` | AtividadeVue_Equipamentos/main.js:134-138 | The session becomes Idle, the draft blank and the flags clear; the collection and the store are unchanged. |
| `Aplicacao.Registro.RemoverEquipamento` | AtividadeVue_Equipamentos/main.js:141-146 | When confirmed, the collection becomes `SemId(old, id)` and is stored. When not confirmed, neither changes. The edit session is never touched. A collection of valid records stays valid. |

## Left out

- `gerarIdUnico` (line 31) reads the clock and a random source. The id it would produce is the `novoId` parameter of `SalvarEquipamento`. Freshness, which the source gets only with high probability, is a hypothesis of the uniqueness `ensures` and is not proved.
- `window.confirm` (line 142) is a user prompt. Its answer is the `confirmado` parameter of `RemoverEquipamento`.
- `localStorage`, `JSON.stringify` and `JSON.parse` (lines 35-45) are modelled by the field `armazenado`, which holds the stored collection as a value. The model does not cover serialisation, a stored value that fails to parse, a falsy stored string, or other tabs writing to the same key.
- `scrollIntoView` (line 130) is DOM behaviour and has no effect on the state.
- Vue's `createApp`, `ref`, `computed` and `mount` (lines 2-5, 191) are left out. The computed properties are functions of the fields, recomputed on demand.
- The template is not part of this model. Its form and filter bindings are modelled as assignments to the draft and filter fields, as the scenario methods make them.
- `Texto.Minusculas`: lowers only the ASCII capitals and the Latin-1 capitals U+00C0–U+00DE. It does not model the rest of Unicode's case mapping (Greek, Cyrillic, special cases such as the dotted capital I), because the model has no Unicode tables.
- Records are assumed to have string ids, so `idEditando` is `Option<string>`. A stored record without an id, which would compare against `null`, is not modelled.

