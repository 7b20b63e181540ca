/**
 * The `Healthy` endpoint both read services expose. Whether the ledger
 * reader's polling loop is alive is an input: the ledger reader is not part
 * of this model.
 */
module ReaderHealth {
  import opened Wrappers

  const UnhealthyMessage := "Ledger reader is unhealthy"

  /** The reply `(status, code, err)`. */
  datatype Health = Health(status: string, code: int, err: Option<string>)

  function Healthy(alive: bool): (r: Health)
    ensures r.err.None? <==> alive
    ensures r.code == 200 <==> alive
    ensures alive ==> r.status == "ok"
    ensures !alive ==> r.code == 500 && r.err == Some(UnhealthyMessage) && r.status == r.err.value
  {
    if alive then Health("ok", 200, None)
    else Health(UnhealthyMessage, 500, Some(UnhealthyMessage))
  }
}
