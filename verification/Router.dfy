/** The llama.cpp router as the gateway observes it: a table from model id to status that the
    gateway changes by POST and that otherwise evolves on its own. */
module Router {
  type ModelId = string

  // Unknown stands for every status string the coordinator does not name.
  datatype Status = Unloaded | Loading | Loaded | Sleeping | Unknown

  datatype Entry = Entry(status: Status, failed: bool)

  // `stopping` holds the models whose unload was accepted but has not happened yet.
  datatype Router = Router(table: map<ModelId, Entry>, stopping: set<ModelId>)

  predicate IsReady(r: Router, m: ModelId) {
    m in r.table && (r.table[m].status.Loaded? || r.table[m].status.Sleeping?)
  }

  // Occupies the GPU.
  predicate IsResident(r: Router, m: ModelId) {
    IsReady(r, m) || (m in r.table && r.table[m].status.Loading?)
  }

  ghost predicate OnlyResident(r: Router, m: ModelId) {
    forall a :: IsResident(r, a) ==> a == m
  }

  ghost predicate AtMostOneResident(r: Router) {
    forall a, b :: IsResident(r, a) && IsResident(r, b) ==> a == b
  }

  ghost function Residents(r: Router): set<ModelId> {
    set m | m in r.table && IsResident(r, m)
  }

  /** What the router may do between two calls of the gateway: finish or fail a load, finish an
      accepted unload, move between loaded and sleeping, discover models. It never starts a load and
      never drops a ready model that was not asked to stop. */
  predicate Evolves(r: Router, r': Router) {
    && r.table.Keys <= r'.table.Keys
    && (forall m :: m in r'.table && IsResident(r', m) ==> IsResident(r, m))
    && (forall m :: m in r.table && IsReady(r, m) && m !in r.stopping ==> IsReady(r', m))
    && r'.stopping == (set m | m in r.stopping && IsResident(r', m))
  }

  /** POST /models/unload. A `prompt` router has unloaded the model when the POST returns; the other
      kind only notes the request and finishes it later. */
  function PostUnload(r: Router, m: ModelId, prompt: bool): Router {
    if prompt
    then Router(r.table[m := Entry(Unloaded, false)], r.stopping - {m})
    else r.(stopping := r.stopping + {m})
  }

  /** POST /models/load. */
  function PostLoad(r: Router, m: ModelId): Router {
    Router(r.table[m := Entry(Loading, false)], r.stopping - {m})
  }

  ghost predicate Distinct(s: seq<ModelId>) {
    forall i, j :: 0 <= i < j < |s| ==> s[i] != s[j]
  }

  // A truthful and complete answer of GET /models, as the order in which it lists the table.
  ghost predicate Enumerates(order: seq<ModelId>, r: Router) {
    && (forall m :: m in order <==> m in r.table)
    && Distinct(order)
  }
}
