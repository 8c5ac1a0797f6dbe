/** The transaction list (src/components/HistorialRegistros.tsx): loading
    the records, deleting one after confirmation, the error texts, the
    render priority and how each row shows its type and sign. */
module HistorialRegistros {
  import opened Common
  import Text

  /** The fields of a record the list shows and acts on. */
  datatype Registro = Registro(id: int, tipo: string, descripcion: string, categoria: string)

  datatype ListState = ListState(registros: seq<Registro>, loading: bool, error: Option<string>)

  /** What `GET /registros` produced: a body whose `data` may be missing, or
      a thrown error. */
  datatype LoadReply = Loaded(data: Option<seq<Registro>>) | LoadFailed(error: RequestError)

  const SessionExpiredText: string := "Sesión expirada. Por favor inicie sesión nuevamente."
  const ServerErrorText: string := "Error del servidor. Por favor intente más tarde."
  const LoadFailedText: string := "Error al cargar los registros."
  const DeleteFailedText: string := "Error al eliminar el registro."
  const DeletedText: string := "Registro eliminado con éxito."

  /** The list as mounted. */
  const Mounted: ListState := ListState([], true, None)

  /** The error text of a failed load. */
  function LoadErrorMessage(err: RequestError): (m: string)
    ensures m != ""
    ensures err.HasStatus(401) ==> m == SessionExpiredText
    ensures err.HasStatus(500) ==> m == ServerErrorText
    ensures !err.HasStatus(401) && !err.HasStatus(500) ==>
      (if Truthy(err.ServerMessage()) then m == err.ServerMessage().value else m == LoadFailedText)
  {
    if err.HasStatus(401) then SessionExpiredText
    else if err.HasStatus(500) then ServerErrorText
    else FirstTruthy(err.ServerMessage(), None, LoadFailedText)
  }

  /** `fetchRegistros` before its `await`: loading on, and the records and
      any earlier error kept, so the list shows the loading notice. */
  function BeginFetch(s: ListState): (r: ListState)
    ensures r.loading && r.registros == s.registros && r.error == s.error
    ensures Render(r) == LoadingView
  {
    s.(loading := true)
  }

  /** `fetchRegistros`: the begin step, then the records (an empty list for
      a missing payload) or an error; loading off on every path. A success
      does not clear an earlier error. */
  function FetchRegistros(s: ListState, reply: LoadReply): (r: ListState)
    ensures !r.loading
    ensures reply.Loaded? ==>
      r.error == s.error && (reply.data.Some? ==> r.registros == reply.data.value)
      && (reply.data.None? ==> r.registros == [])
    ensures reply.LoadFailed? ==>
      r.registros == s.registros && r.error == Some(LoadErrorMessage(reply.error))
  {
    var started := BeginFetch(s);
    match reply
    case Loaded(data) =>
      var rows := match data case Some(d) => d case None => [];
      started.(registros := rows, loading := false)
    case LoadFailed(err) => started.(error := Some(LoadErrorMessage(err)), loading := false)
  }

  /** The alert of a failed delete. */
  function DeleteErrorMessage(err: RequestError): (m: string)
    ensures m != ""
    ensures err.HasStatus(401) ==> m == SessionExpiredText
    ensures !err.HasStatus(401) ==>
      (if Truthy(err.ServerMessage()) then m == err.ServerMessage().value else m == DeleteFailedText)
  {
    if err.HasStatus(401) then SessionExpiredText
    else FirstTruthy(err.ServerMessage(), None, DeleteFailedText)
  }

  /** What `handleDelete` does: the request it sends (if any), the alert it
      shows, and whether it reloads the list and notifies the rest of the
      application. */
  datatype DeleteEffects = DeleteEffects(request: Option<string>, alert: Option<string>, reload: bool)

  /** `handleDelete`, given the user's answer to the confirmation and the
      failure of the delete request if it failed. */
  function HandleDelete(id: int, confirmed: bool, failure: Option<RequestError>): (e: DeleteEffects)
    ensures !confirmed ==> e == DeleteEffects(None, None, false)
    ensures confirmed ==> e.request == Some("/registros/" + Text.IntToString(id)) && e.alert.Some?
    ensures confirmed ==> (e.reload <==> failure.None?)
    ensures confirmed && failure.None? ==> e.alert == Some(DeletedText)
    ensures confirmed && failure.Some? ==> e.alert == Some(DeleteErrorMessage(failure.value))
  {
    if !confirmed then DeleteEffects(None, None, false)
    else
      var path := "/registros/" + Text.IntToString(id);
      match failure
      case None => DeleteEffects(Some(path), Some(DeletedText), true)
      case Some(err) => DeleteEffects(Some(path), Some(DeleteErrorMessage(err)), false)
  }

  /** The colour a row's type and amount are shown in. */
  datatype Tone = GreenText | RedText

  datatype Row = Row(sign: string, tone: Tone, tipoLabel: string)

  /** `toUpperCase` on one character, for the Latin letters a to z. */
  function UpperAscii(c: char): (u: char)
    ensures 'a' <= c <= 'z' ==> 'A' <= u <= 'Z' && u as int == c as int - 32
    ensures !('a' <= c <= 'z') ==> u == c
  {
    if 'a' <= c <= 'z' then (c as int - 32) as char else c
  }

  /** `s.charAt(0).toUpperCase() + s.slice(1)` */
  function Capitalize(s: string): (r: string)
    ensures |r| == |s|
    ensures |s| > 0 ==> r[0] == UpperAscii(s[0]) && r[1..] == s[1..]
  {
    if |s| == 0 then "" else [UpperAscii(s[0])] + s[1..]
  }

  /** The row of one record: income is "+" in green, anything else "-" in
      red. */
  function RowOf(r: Registro): (row: Row)
    ensures r.tipo == "ingreso" <==> row.sign == "+"
    ensures row.tone == GreenText <==> row.sign == "+"
    ensures row.tipoLabel == Capitalize(r.tipo)
  {
    if r.tipo == "ingreso" then Row("+", GreenText, Capitalize(r.tipo))
    else Row("-", RedText, Capitalize(r.tipo))
  }

  lemma TipoLabels()
    ensures RowOf(Registro(0, "ingreso", "", "")).tipoLabel == "Ingreso"
    ensures RowOf(Registro(0, "gasto", "", "")).tipoLabel == "Gasto"
  {
  }

  datatype View = LoadingView | ErrorView(message: string) | EmptyView | TableView(rows: seq<Row>)

  /** The render: loading first, then the error, then the empty notice, then
      the table. */
  function Render(s: ListState): (v: View)
    ensures s.loading <==> v == LoadingView
    ensures v.ErrorView? <==> !s.loading && Truthy(s.error)
    ensures v.ErrorView? ==> v.message == s.error.value
    ensures v == EmptyView <==> !s.loading && !Truthy(s.error) && |s.registros| == 0
    ensures v.TableView? ==>
      && |v.rows| == |s.registros|
      && forall i :: 0 <= i < |s.registros| ==> v.rows[i] == RowOf(s.registros[i])
  {
    if s.loading then LoadingView
    else if Truthy(s.error) then ErrorView(s.error.value)
    else if |s.registros| == 0 then EmptyView
    else TableView(seq(|s.registros|, i requires 0 <= i < |s.registros| => RowOf(s.registros[i])))
  }

  /** After any load the list is no longer loading, and a failed first load
      shows its error. */
  lemma LoadEndsLoading(reply: LoadReply)
    ensures Render(FetchRegistros(Mounted, reply)) != LoadingView
    ensures reply.LoadFailed? ==> Render(FetchRegistros(Mounted, reply)) == ErrorView(LoadErrorMessage(reply.error))
  {
  }
}
