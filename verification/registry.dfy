/** `createOrUpdateLineChart` (frontend/src/charts/factory.js): a registry of chart
    instances by key that updates an instance in place when it is asked to draw on the
    same canvas and otherwise destroys it and creates a new one. A chart is an abstract
    handle: an identity, its canvas, the data and options it was last given, and the
    number of in-place updates it has had. */
module ChartRegistry {
  import opened Common
  import opened ChartFactory

  /** The identity of a canvas element. */
  type Canvas = nat

  /** A chart instance. `payload` stands for the `$payload` property, which any value may fill. */
  datatype Chart = Chart(
    id: nat, canvas: Canvas, labels: seq<string>, datasets: seq<Dataset>,
    options: ChartOptions, payload: Option<string>, updates: nat)

  /** The `chartInstances` object, plus the identities of the charts destroyed so far and
      the identity the next created chart gets. */
  datatype Registry = Registry(charts: map<string, Chart>, destroyed: set<nat>, nextId: nat)

  /** Every live chart has an identity below `nextId`, not destroyed and not shared with
      another key. */
  ghost predicate Valid(reg: Registry) {
    (forall k :: k in reg.charts ==> reg.charts[k].id < reg.nextId && reg.charts[k].id !in reg.destroyed)
    && (forall k1, k2 :: k1 in reg.charts && k2 in reg.charts && k1 != k2 ==>
          reg.charts[k1].id != reg.charts[k2].id)
    && (forall d :: d in reg.destroyed ==> d < reg.nextId)
  }

  /** One call's arguments; the empty key stands for a missing one. */
  datatype Request = Request(
    key: string, canvas: Option<Canvas>, labels: seq<string>,
    dataset: Option<Dataset>, datasets: Option<seq<Dataset>>,
    options: ChartOptions, payload: Option<string>)

  /** `datasets` when it is given, otherwise the single `dataset`, otherwise none. */
  function DatasetList(q: Request): (r: seq<Dataset>)
    ensures q.datasets.Some? ==> r == q.datasets.value
    ensures q.datasets.None? && q.dataset.Some? ==> r == [q.dataset.value]
    ensures q.datasets.None? && q.dataset.None? ==> r == []
  {
    match q.datasets
    case Some(ds) => ds
    case None => (match q.dataset case Some(d) => [d] case None => [])
  }

  /** The outcome of one call: the chart returned (`None` for `null`) and the registry after it. */
  datatype Outcome = Outcome(chart: Option<Chart>, registry: Option<Registry>)

  predicate Refused(reg: Option<Registry>, backend: bool, q: Request) {
    q.key == "" || reg.None? || q.canvas.None? || !backend
  }

  /** `createOrUpdateLineChart`. `reg` is `None` when no registry object is passed;
      `backend` says whether `window.Chart` exists. */
  function CreateOrUpdate(reg: Option<Registry>, backend: bool, q: Request): (o: Outcome)
    ensures Refused(reg, backend, q) ==> o == Outcome(None, reg)
    ensures !Refused(reg, backend, q) ==>
      o.chart.Some? && o.registry.Some?
      && q.key in o.registry.value.charts && o.registry.value.charts[q.key] == o.chart.value
      && o.chart.value.canvas == q.canvas.value
      && o.chart.value.labels == q.labels && o.chart.value.datasets == DatasetList(q)
      && o.chart.value.options == q.options
      && (forall k :: k in reg.value.charts && k != q.key ==>
            k in o.registry.value.charts && o.registry.value.charts[k] == reg.value.charts[k])
      && (forall k :: k in o.registry.value.charts && k != q.key ==> k in reg.value.charts)
  {
    if Refused(reg, backend, q) then Outcome(None, reg)
    else
      var r := reg.value;
      var canvas := q.canvas.value;
      var list := DatasetList(q);
      if q.key in r.charts && r.charts[q.key].canvas == canvas then
        var prev := r.charts[q.key];
        var updated := prev.(labels := q.labels, datasets := list, options := q.options,
          payload := if q.payload.Some? then q.payload else prev.payload, updates := prev.updates + 1);
        Outcome(Some(updated), Some(r.(charts := r.charts[q.key := updated])))
      else
        var destroyed := if q.key in r.charts then r.destroyed + {r.charts[q.key].id} else r.destroyed;
        var created := Chart(r.nextId, canvas, q.labels, list, q.options, q.payload, 0);
        Outcome(Some(created), Some(Registry(r.charts[q.key := created], destroyed, r.nextId + 1)))
  }

  /** Drawing again on the same canvas updates the same instance in place: same identity,
      one more update, nothing destroyed, and a payload replaced only when one is given. */
  lemma SameCanvasUpdatesInPlace(reg: Registry, q: Request)
    requires q.key != "" && q.canvas.Some?
    requires q.key in reg.charts && reg.charts[q.key].canvas == q.canvas.value
    ensures var o := CreateOrUpdate(Some(reg), true, q);
      var prev := reg.charts[q.key];
      o.chart.value.id == prev.id && o.chart.value.updates == prev.updates + 1
      && o.registry.value.destroyed == reg.destroyed
      && o.chart.value.payload == (if q.payload.Some? then q.payload else prev.payload)
  {
  }

  /** Drawing on another canvas destroys the old instance and stores a fresh one. */
  lemma OtherCanvasRecreates(reg: Registry, q: Request)
    requires Valid(reg)
    requires q.key != "" && q.canvas.Some?
    requires q.key in reg.charts && reg.charts[q.key].canvas != q.canvas.value
    ensures var o := CreateOrUpdate(Some(reg), true, q);
      reg.charts[q.key].id in o.registry.value.destroyed
      && o.chart.value.id != reg.charts[q.key].id
      && o.chart.value.id !in o.registry.value.destroyed
      && o.chart.value.updates == 0 && o.chart.value.payload == q.payload
  {
  }

  /** Every call keeps the registry valid: live instances are never destroyed ones and no
      two keys share an instance. */
  lemma CreateOrUpdateValid(reg: Registry, backend: bool, q: Request)
    requires Valid(reg)
    ensures var o := CreateOrUpdate(Some(reg), backend, q);
      o.registry.Some? && Valid(o.registry.value)
  {
    var o := CreateOrUpdate(Some(reg), backend, q);
    if !Refused(Some(reg), backend, q) {
      var r := o.registry.value;
      forall k | k in r.charts
        ensures r.charts[k].id < r.nextId && r.charts[k].id !in r.destroyed
      {
        if k != q.key {
          assert r.charts[k] == reg.charts[k];
          if q.key in reg.charts {
            assert reg.charts[k].id != reg.charts[q.key].id;
          }
        }
      }
      forall k1, k2 | k1 in r.charts && k2 in r.charts && k1 != k2
        ensures r.charts[k1].id != r.charts[k2].id
      {
        if k1 != q.key && k2 != q.key {
          assert r.charts[k1] == reg.charts[k1] && r.charts[k2] == reg.charts[k2];
        } else if k1 == q.key && q.key in reg.charts && reg.charts[q.key].canvas == q.canvas.value {
          assert r.charts[k2] == reg.charts[k2];
        } else if k2 == q.key && q.key in reg.charts && reg.charts[q.key].canvas == q.canvas.value {
          assert r.charts[k1] == reg.charts[k1];
        }
      }
    }
  }
}
