/** The transaction form (src/app/registrar/page.tsx): field updates, the
    validity check behind the submit button, reset, the outcome of a submit,
    and the category name shown in the preview. `today` stands for
    `new Date().toISOString().split("T")[0]`. */
module Registrar {
  import opened Common
  import Text

  datatype Field = Tipo | IdCategoria | Descripcion | Monto | FechaRegistro

  /** `formData`: every field is held as the string the input shows. */
  datatype Form = Form(tipo: string, idCategoria: string, descripcion: string, monto: string, fechaRegistro: string)

  function Get(f: Form, field: Field): string
  {
    match field
    case Tipo => f.tipo
    case IdCategoria => f.idCategoria
    case Descripcion => f.descripcion
    case Monto => f.monto
    case FechaRegistro => f.fechaRegistro
  }

  function Set(f: Form, field: Field, value: string): (r: Form)
    ensures Get(r, field) == value
    ensures forall g :: g != field ==> Get(r, g) == Get(f, g)
  {
    match field
    case Tipo => f.(tipo := value)
    case IdCategoria => f.(idCategoria := value)
    case Descripcion => f.(descripcion := value)
    case Monto => f.(monto := value)
    case FechaRegistro => f.(fechaRegistro := value)
  }

  /** The form as mounted and after reset: four empty fields and today's
      date. */
  function Initial(today: string): (f: Form)
    ensures forall g :: g != FechaRegistro ==> Get(f, g) == ""
    ensures Get(f, FechaRegistro) == today
  {
    Form("", "", "", "", today)
  }

  /** `handleInputChange`: the named field takes the value; changing `tipo`
      also clears the category; nothing else changes. */
  function InputChange(f: Form, field: Field, value: string): (r: Form)
    ensures Get(r, field) == value
    ensures field == Tipo ==> Get(r, IdCategoria) == ""
    ensures forall g :: g != field && !(field == Tipo && g == IdCategoria) ==> Get(r, g) == Get(f, g)
  {
    var r := Set(f, field, value);
    if field == Tipo then Set(r, IdCategoria, "") else r
  }

  /** `handleTipoSelect`: sets the type and clears the category. */
  function TipoSelect(f: Form, tipo: string): (r: Form)
    ensures r.tipo == tipo && r.idCategoria == ""
    ensures r.descripcion == f.descripcion && r.monto == f.monto && r.fechaRegistro == f.fechaRegistro
  {
    f.(tipo := tipo, idCategoria := "")
  }

  /** Picking a type card has the same effect as typing the type. */
  lemma TipoSelectIsTipoInput(f: Form, tipo: string)
    ensures TipoSelect(f, tipo) == InputChange(f, Tipo, tipo)
  {
  }

  /** `handleReset` */
  function Reset(f: Form, today: string): (r: Form)
    ensures forall g :: g != FechaRegistro ==> Get(r, g) == ""
    ensures Get(r, FechaRegistro) == today
    ensures r == Initial(today)
  {
    Initial(today)
  }

  /** `isFormValid`: every field is a non-empty string. */
  predicate IsFormValid(f: Form)
  {
    f.tipo != "" && f.idCategoria != "" && f.descripcion != "" && f.monto != "" && f.fechaRegistro != ""
  }

  /** Validity, stated field by field. */
  lemma ValidIffAllFieldsFilled(f: Form)
    ensures IsFormValid(f) <==> forall g :: Get(f, g) != ""
  {
    if !IsFormValid(f) {
      if f.tipo == "" { assert Get(f, Tipo) == ""; }
      else if f.idCategoria == "" { assert Get(f, IdCategoria) == ""; }
      else if f.descripcion == "" { assert Get(f, Descripcion) == ""; }
      else if f.monto == "" { assert Get(f, Monto) == ""; }
      else { assert Get(f, FechaRegistro) == ""; }
    }
  }

  /** A freshly reset form can never be submitted: its type is empty. */
  lemma ResetFormIsInvalid(f: Form, today: string)
    ensures !IsFormValid(Reset(f, today))
  {
  }

  /** Changing the type invalidates the form until a category is chosen
      again. */
  lemma TipoChangeInvalidates(f: Form, tipo: string)
    ensures !IsFormValid(TipoSelect(f, tipo))
  {
  }

  /** `disabled` of the submit button. */
  predicate SubmitDisabled(f: Form, isSubmitting: bool)
  {
    !IsFormValid(f) || isSubmitting
  }

  /** `disabled` of the category select. */
  predicate CategoryDisabled(f: Form, isLoadingCategorias: bool)
  {
    f.tipo == "" || isLoadingCategorias
  }

  /** Whenever submit is enabled the category select was usable for the
      chosen type, unless categories are loading. */
  lemma EnabledSubmitHasType(f: Form, isSubmitting: bool, isLoadingCategorias: bool)
    requires !SubmitDisabled(f, isSubmitting)
    ensures !CategoryDisabled(f, isLoadingCategorias) <==> !isLoadingCategorias
  {
  }

  datatype Page = Page(form: Form, isSubmitting: bool, showSuccess: bool, error: Option<string>)

  /** Effects a submit schedules besides its state change. */
  datatype Effect = NotifyRecordsChanged | HideSuccessAfter(ms: nat) | SignInAfter(ms: nat)

  const SessionExpiredMessage: string := "Tu sesión expiró. Por favor, inicia sesión nuevamente."
  const SaveFailedMessage: string := "Error al guardar"

  /** The error shown when saving fails: the session-expired text for 401,
      otherwise the server message, the error's own message, or a fixed
      text, in that order. */
  function SubmitErrorMessage(err: RequestError): (m: string)
    ensures m != ""
    ensures err.HasStatus(401) ==> m == SessionExpiredMessage
    ensures !err.HasStatus(401) ==> m == FirstTruthy(err.ServerMessage(), err.message, SaveFailedMessage)
  {
    if err.HasStatus(401) then SessionExpiredMessage
    else FirstTruthy(err.ServerMessage(), err.message, SaveFailedMessage)
  }

  /** `handleSubmit` before its `await`: submitting on and the error
      cleared; the form and the success notice stay. While the save is in
      flight the submit button is disabled, so a second click is ignored. */
  function BeginSubmit(p: Page): (r: Page)
    ensures r.isSubmitting && r.error.None?
    ensures r.form == p.form && r.showSuccess == p.showSuccess
    ensures SubmitDisabled(r.form, r.isSubmitting)
  {
    p.(isSubmitting := true, error := None)
  }

  /** `handleSubmit` from start to end, given the failure of the save
      request if it failed: the begin step, then the success or failure
      update. The error shown afterwards is only ever the one this save
      produced. */
  function Submit(p: Page, failure: Option<RequestError>, today: string): (r: (Page, seq<Effect>))
    ensures !r.0.isSubmitting
    ensures r.0.error.Some? <==> failure.Some?
    ensures failure.None? ==>
      r.0.form == Initial(today) && r.0.showSuccess
      && r.1 == [HideSuccessAfter(900), NotifyRecordsChanged]
    ensures failure.Some? ==>
      r.0.form == p.form && r.0.showSuccess == p.showSuccess
      && r.0.error == Some(SubmitErrorMessage(failure.value))
      && (r.1 == [SignInAfter(2000)] <==> failure.value.HasStatus(401))
      && (r.1 == [] <==> !failure.value.HasStatus(401))
  {
    var started := BeginSubmit(p);
    match failure
    case None =>
      (Page(Initial(today), false, true, None), [HideSuccessAfter(900), NotifyRecordsChanged])
    case Some(err) =>
      (started.(isSubmitting := false, error := Some(SubmitErrorMessage(err))),
       if err.HasStatus(401) then [SignInAfter(2000)] else [])
  }

  /** A category as the API lists it. */
  datatype Categoria = Categoria(id: int, nombre: string)

  const NoCategoryName: string := "Sin categoría"

  /** `cats[i]` is the first category whose id, as a string, is `key`. */
  predicate FirstMatch(cats: seq<Categoria>, key: string, i: int)
  {
    && 0 <= i < |cats|
    && Text.IntToString(cats[i].id) == key
    && forall j :: 0 <= j < i ==> Text.IntToString(cats[j].id) != key
  }

  /** `cats.find(cat => cat.id_categoria.toString() === key)` */
  function FindCategory(cats: seq<Categoria>, key: string): (r: Option<Categoria>)
    ensures r.Some? <==> exists i :: 0 <= i < |cats| && Text.IntToString(cats[i].id) == key
    ensures r.Some? ==> exists i :: FirstMatch(cats, key, i) && cats[i] == r.value
  {
    if |cats| == 0 then None
    else if Text.IntToString(cats[0].id) == key then
      assert FirstMatch(cats, key, 0);
      Some(cats[0])
    else
      var r := FindCategory(cats[1..], key);
      assert forall i :: 1 <= i < |cats| ==> cats[i] == cats[1..][i - 1];
      if r.Some? then
        ghost var k :| FirstMatch(cats[1..], key, k) && cats[1..][k] == r.value;
        assert FirstMatch(cats, key, k + 1) by {
          forall j | 0 <= j < k + 1 ensures Text.IntToString(cats[j].id) != key {
            if j > 0 {
              assert cats[j] == cats[1..][j - 1];
            }
          }
        }
        r
      else r
  }

  /** There is at most one first match. */
  lemma FirstMatchUnique(cats: seq<Categoria>, key: string, i: int, j: int)
    requires FirstMatch(cats, key, i) && FirstMatch(cats, key, j)
    ensures i == j
  {
  }

  /** The preview's category name: the name of the first matching category
      among income then expense categories, or "Sin categoría" when none
      matches or its name is empty. */
  function CategoryName(ingreso: seq<Categoria>, gasto: seq<Categoria>, idCategoria: string): (name: string)
    ensures name != ""
    ensures forall i :: FirstMatch(ingreso + gasto, idCategoria, i) ==>
      name == if (ingreso + gasto)[i].nombre != "" then (ingreso + gasto)[i].nombre else NoCategoryName
    ensures (forall i :: 0 <= i < |ingreso + gasto| ==> Text.IntToString((ingreso + gasto)[i].id) != idCategoria) ==>
      name == NoCategoryName
  {
    var all := ingreso + gasto;
    match FindCategory(all, idCategoria)
    case None => NoCategoryName
    case Some(c) =>
      ghost var k :| FirstMatch(all, idCategoria, k) && all[k] == c;
      assert forall i :: FirstMatch(all, idCategoria, i) ==> i == k by {
        forall i | FirstMatch(all, idCategoria, i) ensures i == k {
          FirstMatchUnique(all, idCategoria, i, k);
        }
      }
      if c.nombre != "" then c.nombre else NoCategoryName
  }

  /** No category matches an empty selection. */
  lemma EmptySelectionHasNoCategory(ingreso: seq<Categoria>, gasto: seq<Categoria>)
    ensures CategoryName(ingreso, gasto, "") == NoCategoryName
  {
  }

  /** No two categories share an id. */
  predicate UniqueIds(cats: seq<Categoria>)
  {
    forall i, j :: 0 <= i < j < |cats| ==> cats[i].id != cats[j].id
  }

  /** Distinct ids give distinct option values, so an option value names
      at most one category. */
  lemma DistinctIdsDistinctKeys(cats: seq<Categoria>)
    requires UniqueIds(cats)
    ensures forall i, j :: 0 <= i < j < |cats| ==> Text.IntToString(cats[i].id) != Text.IntToString(cats[j].id)
  {
    forall i, j | 0 <= i < j < |cats|
      ensures Text.IntToString(cats[i].id) != Text.IntToString(cats[j].id)
    {
      if Text.IntToString(cats[i].id) == Text.IntToString(cats[j].id) {
        Text.IntToStringInjective(cats[i].id, cats[j].id);
      }
    }
  }

  /** Selecting an option of the list (its value is the category id as a
      string) previews that category's name when ids are unique. */
  lemma SelectedCategoryIsPreviewed(ingreso: seq<Categoria>, gasto: seq<Categoria>, k: nat)
    requires k < |ingreso + gasto| && (ingreso + gasto)[k].nombre != ""
    requires UniqueIds(ingreso + gasto)
    ensures CategoryName(ingreso, gasto, Text.IntToString((ingreso + gasto)[k].id)) == (ingreso + gasto)[k].nombre
  {
    DistinctIdsDistinctKeys(ingreso + gasto);
  }
}
