/** Copying one database into another, model by model and page by page. */
module CopyDatabase {
  import opened Wrappers
  import opened CopyOrder

  type Tables<Row> = map<string, seq<Row>>

  function RowsOf<Row>(tables: Tables<Row>, model: string): seq<Row> {
    if model in tables then tables[model] else []
  }

  function Page<Row>(rows: seq<Row>, skip: nat, take: nat): seq<Row> {
    if skip >= |rows| then []
    else if skip + take > |rows| then rows[skip..]
    else rows[skip..skip + take]
  }

  class Database<Row(==)> {
    var tables: Tables<Row>
    /** The tables as they stood after each insertion. */
    ghost var history: seq<Tables<Row>>

    constructor (tables: Tables<Row>)
      ensures this.tables == tables && history == []
    {
      this.tables := tables;
      history := [];
    }

    method Count(model: string) returns (n: nat)
      ensures n == |RowsOf(tables, model)|
    {
      n := |RowsOf(tables, model)|;
    }

    method FindMany(model: string, skip: nat, take: nat) returns (rows: seq<Row>)
      ensures rows == Page(RowsOf(tables, model), skip, take)
    {
      rows := Page(RowsOf(tables, model), skip, take);
    }

    method CreateMany(model: string, data: seq<Row>) returns (count: nat)
      modifies this
      ensures tables == old(tables)[model := RowsOf(old(tables), model) + data]
      ensures history == old(history) + [tables] && count == |data|
    {
      tables := tables[model := RowsOf(tables, model) + data];
      history := history + [tables];
      count := |data|;
    }
  }

  /** Nothing in the target but rows of the source, and wherever a model has a
      copied row, every known model it refers to is there in full. */
  ghost predicate Safe<Row>(known: map<string, Model>, source: Tables<Row>, target: Tables<Row>) {
    && (forall m :: m in known ==> RowsOf(target, m) <= RowsOf(source, m))
    && (forall m, d {:trigger Edge(known, m, d)} ::
          Edge(known, m, d) && RowsOf(target, m) != [] ==> RowsOf(target, d) == RowsOf(source, d))
  }

  /** The first `done` models of the order are complete, the later ones still empty. */
  ghost predicate UpTo<Row>(order: seq<string>, done: nat, source: Tables<Row>, target: Tables<Row>) {
    && (forall k :: 0 <= k < |order| && k < done ==> RowsOf(target, order[k]) == RowsOf(source, order[k]))
    && (forall k :: 0 <= k < |order| && done < k ==> RowsOf(target, order[k]) == [])
  }

  ghost predicate GoodOrder(known: map<string, Model>, order: seq<string>) {
    Distinct(order) && DependenciesFirst(known, order) && forall n :: n in order <==> n in known
  }

  lemma UpToIsSafe<Row>(known: map<string, Model>, order: seq<string>,
                        at: nat, source: Tables<Row>, target: Tables<Row>)
    requires GoodOrder(known, order) && at < |order| && UpTo(order, at, source, target)
    requires RowsOf(target, order[at]) <= RowsOf(source, order[at])
    ensures Safe(known, source, target)
  {
    forall m | m in known
      ensures RowsOf(target, m) <= RowsOf(source, m)
    {
      var k :| 0 <= k < |order| && order[k] == m;
    }
    forall m, d | Edge(known, m, d) && RowsOf(target, m) != []
      ensures RowsOf(target, d) == RowsOf(source, d)
    {
      var k :| 0 <= k < |order| && order[k] == m;
      assert d in order[..k];
      var j :| 0 <= j < k && order[j] == d;
    }
  }

  lemma OthersUntouched<Row>(known: map<string, Model>, order: seq<string>, at: nat, source: Tables<Row>,
                             before: Tables<Row>, after: Tables<Row>)
    requires GoodOrder(known, order) && at < |order| && UpTo(order, at, source, before)
    requires forall m :: m != order[at] ==> RowsOf(after, m) == RowsOf(before, m)
    ensures UpTo(order, at, source, after)
  {
  }

  lemma OneMoreComplete<Row>(known: map<string, Model>, order: seq<string>,
                             at: nat, source: Tables<Row>, target: Tables<Row>)
    requires GoodOrder(known, order) && at < |order| && UpTo(order, at, source, target)
    requires RowsOf(target, order[at]) == RowsOf(source, order[at])
    ensures UpTo(order, at + 1, source, target) && (at + 1 < |order| ==> RowsOf(target, order[at + 1]) == [])
  {
  }

  /** Everything recorded since `before` was safe. */
  ghost predicate SafeSince<Row>(known: map<string, Model>, source: Tables<Row>,
                                 before: seq<Tables<Row>>, now: seq<Tables<Row>>) {
    before <= now && forall k :: |before| <= k < |now| ==> Safe(known, source, now[k])
  }

  lemma SafeSinceGrows<Row>(known: map<string, Model>, source: Tables<Row>, before: seq<Tables<Row>>,
                            mid: seq<Tables<Row>>, now: seq<Tables<Row>>)
    requires SafeSince(known, source, before, mid) && SafeSince(known, source, mid, now)
    ensures SafeSince(known, source, before, now)
  {
  }

  lemma SafeSinceOneMore<Row>(known: map<string, Model>, source: Tables<Row>, before: seq<Tables<Row>>,
                              now: seq<Tables<Row>>, snapshot: Tables<Row>)
    requires SafeSince(known, source, before, now) && Safe(known, source, snapshot)
    ensures SafeSince(known, source, before, now + [snapshot])
  {
  }

  lemma SafeFromNow<Row>(known: map<string, Model>, source: Tables<Row>, now: seq<Tables<Row>>)
    ensures SafeSince(known, source, now, now)
  {
  }

  datatype CopyResult = CopyResult(model: string, rows: nat)

  datatype Outcome =
    | Copied(results: seq<CopyResult>)
    | RelationCycle(path: seq<string>)
    | Occupied(models: seq<string>)
    | SourceChanged(model: string, copied: nat, rows: nat)

  /** The pages of one model. A batch size of zero reads nothing at all. */
  method CopyModel<Row>(ghost known: map<string, Model>, ghost order: seq<string>, ghost at: nat,
                        model: string, source: Database<Row>, target: Database<Row>, batchSize: nat)
    returns (copied: nat)
    requires source != target && GoodOrder(known, order) && at < |order| && order[at] == model
    requires UpTo(order, at, source.tables, target.tables) && RowsOf(target.tables, model) == []
    modifies target
    ensures UpTo(order, at, source.tables, target.tables)
    ensures RowsOf(target.tables, model) == if batchSize == 0 then [] else RowsOf(source.tables, model)
    ensures batchSize == 0 ==> target.tables == old(target.tables) && target.history == old(target.history)
    ensures copied == |RowsOf(target.tables, model)|
    ensures forall m :: m != model ==> RowsOf(target.tables, m) == RowsOf(old(target.tables), m)
    ensures SafeSince(known, source.tables, old(target.history), target.history)
  {
    hide Safe, UpTo, GoodOrder, ByName, SafeSince;
    SafeFromNow(known, source.tables, target.history);
    copied := 0;
    var skip := 0;
    ghost var all := RowsOf(source.tables, model);
    while true
      invariant skip <= |all| && copied == skip && RowsOf(target.tables, model) == all[..skip]
      invariant batchSize == 0 ==>
        skip == 0 && target.tables == old(target.tables) && target.history == old(target.history)
      invariant forall m :: m != model ==> RowsOf(target.tables, m) == RowsOf(old(target.tables), m)
      invariant UpTo(order, at, source.tables, target.tables)
      invariant SafeSince(known, source.tables, old(target.history), target.history)
      decreases |all| - skip
    {
      var rows := source.FindMany(model, skip, batchSize);
      if |rows| == 0 {
        break;
      }
      assert all[..skip] + rows == all[..skip + |rows|];
      ghost var before, recorded := target.tables, target.history;
      var count := target.CreateMany(model, rows);
      OthersUntouched(known, order, at, source.tables, before, target.tables);
      UpToIsSafe(known, order, at, source.tables, target.tables);
      SafeSinceOneMore(known, source.tables, old(target.history), recorded, target.tables);
      copied := copied + count;
      if |rows| < batchSize {
        assert all[..skip + |rows|] == all;
        break;
      }
      skip := skip + batchSize;
    }
    assert batchSize > 0 ==> RowsOf(target.tables, model) == all;
  }

  /** The models of the order that already have rows in the target. */
  method FindOccupied<Row>(order: seq<string>, target: Database<Row>) returns (occupied: seq<string>)
    ensures forall m :: m in occupied <==> m in order && RowsOf(target.tables, m) != []
  {
    occupied := [];
    for k := 0 to |order|
      invariant forall m :: m in occupied <==> m in order[..k] && RowsOf(target.tables, m) != []
    {
      var n := target.Count(order[k]);
      if n > 0 {
        occupied := occupied + [order[k]];
      }
      assert order[..k + 1] == order[..k] + [order[k]];
    }
    assert order[..|order|] == order;
  }

  function Names(results: seq<CopyResult>): seq<string> {
    seq(|results|, k requires 0 <= k < |results| => results[k].model)
  }

  ghost predicate NoRows<Row>(known: map<string, Model>, tables: Tables<Row>) {
    forall m :: m in known ==> RowsOf(tables, m) == []
  }

  /** One result a model, in copy order, with its row count; every table copied whole. */
  ghost predicate WholeCopy<Row>(known: map<string, Model>, source: Tables<Row>,
                                 target: Tables<Row>, results: seq<CopyResult>) {
    && GoodOrder(known, Names(results))
    && (forall k :: 0 <= k < |results| ==> results[k].rows == |RowsOf(source, results[k].model)|)
    && (forall m :: m in known ==> RowsOf(target, m) == RowsOf(source, m))
  }

  /** The copying loop, once the order is known and the target found empty. */
  method CopyAll<Row>(ghost known: map<string, Model>, order: seq<string>,
                      source: Database<Row>, target: Database<Row>, batchSize: nat)
    returns (outcome: Outcome)
    requires source != target && GoodOrder(known, order) && NoRows(known, target.tables)
    modifies target
    ensures outcome.Copied? || outcome.SourceChanged?
    ensures outcome.Copied? <==> (batchSize > 0 || NoRows(known, source.tables))
    ensures outcome.Copied? ==> WholeCopy(known, source.tables, target.tables, outcome.results)
    ensures outcome.SourceChanged? ==>
      outcome.model in known && outcome.copied == 0 && outcome.rows == |RowsOf(source.tables, outcome.model)| > 0
    ensures !outcome.Copied? ==> target.tables == old(target.tables) && target.history == old(target.history)
    ensures forall m :: m !in known ==> RowsOf(target.tables, m) == RowsOf(old(target.tables), m)
    ensures SafeSince(known, source.tables, old(target.history), target.history)
  {
    hide Safe, DependenciesFirst, Distinct, SafeSince, UpTo;
    var results: seq<CopyResult> := [];
    assert forall k :: 0 <= k < |order| ==> order[k] in known;
    EmptyAtFirst(known, order, source.tables, target.tables);
    SafeFromNow(known, source.tables, target.history);
    for k := 0 to |order|
      invariant UpTo(order, k, source.tables, target.tables)
      invariant k < |order| ==> RowsOf(target.tables, order[k]) == []
      invariant |results| == k
      invariant forall j :: 0 <= j < k ==> results[j] == CopyResult(order[j], |RowsOf(source.tables, order[j])|)
      invariant forall m :: m !in known ==> RowsOf(target.tables, m) == RowsOf(old(target.tables), m)
      invariant SafeSince(known, source.tables, old(target.history), target.history)
      invariant batchSize == 0 ==> target.tables == old(target.tables) && target.history == old(target.history)
      invariant batchSize == 0 ==> forall j :: 0 <= j < k ==> RowsOf(source.tables, order[j]) == []
    {
      ghost var before := target.history;
      var copied := CopyModel(known, order, k, order[k], source, target, batchSize);
      SafeSinceGrows(known, source.tables, old(target.history), before, target.history);
      var s := source.Count(order[k]);
      var t := target.Count(order[k]);
      if s != t {
        return SourceChanged(order[k], t, s);
      }
      OneMoreComplete(known, order, k, source.tables, target.tables);
      results := results + [CopyResult(order[k], copied)];
    }
    AllComplete(known, order, source.tables, target.tables);
    assert Names(results) == order;
    if batchSize == 0 {
      forall m | m in known
        ensures RowsOf(source.tables, m) == []
      {
        var k :| 0 <= k < |order| && order[k] == m;
      }
    }
    return Copied(results);
  }

  lemma EmptyAtFirst<Row>(known: map<string, Model>, order: seq<string>, source: Tables<Row>, target: Tables<Row>)
    requires GoodOrder(known, order) && NoRows(known, target)
    ensures UpTo(order, 0, source, target) && (|order| > 0 ==> RowsOf(target, order[0]) == [])
  {
  }

  lemma AllComplete<Row>(known: map<string, Model>, order: seq<string>, source: Tables<Row>, target: Tables<Row>)
    requires GoodOrder(known, order) && UpTo(order, |order|, source, target)
    ensures forall m :: m in known ==> RowsOf(target, m) == RowsOf(source, m)
  {
    forall m | m in known
      ensures RowsOf(target, m) == RowsOf(source, m)
    {
      var k :| 0 <= k < |order| && order[k] == m;
    }
  }

  /** With an unchanging source the copy succeeds exactly when the relations have
      no cycle, the target is empty and the batch size is positive (or there is
      nothing to copy); then every table equals its source, and at every moment on
      the way no copied row refers to a model that is not complete. */
  method Copy<Row>(models: seq<Model>, sorted: seq<Model>, source: Database<Row>, target: Database<Row>,
                   batchSize: nat := 500)
    returns (outcome: Outcome)
    requires source != target && multiset(sorted) == multiset(models)
    modifies target
    ensures var known := ByName(models);
      var startsEmpty := NoRows(known, old(target.tables));
      var pages := batchSize > 0 || NoRows(known, source.tables);
      && (outcome.RelationCycle? <==> HasCycle(known))
      && (outcome.Occupied? <==> !HasCycle(known) && !startsEmpty)
      && (outcome.Copied? <==> !HasCycle(known) && startsEmpty && pages)
      && (outcome.RelationCycle? ==> Chain(known, outcome.path) && Revisits(outcome.path))
      && (outcome.SourceChanged? ==>
            outcome.model in known && outcome.copied == 0 && outcome.rows == |RowsOf(source.tables, outcome.model)| > 0)
      && (outcome.Copied? ==> WholeCopy(known, source.tables, target.tables, outcome.results))
      && (outcome.Occupied? ==> forall m :: m in outcome.models <==> m in known && RowsOf(old(target.tables), m) != [])
      && (!outcome.Copied? ==> target.tables == old(target.tables) && target.history == old(target.history))
      && (forall m :: m !in known ==> RowsOf(target.tables, m) == RowsOf(old(target.tables), m))
      && SafeSince(known, source.tables, old(target.history), target.history)
  {
    hide Safe, HasCycle, DependenciesFirst, Distinct, WholeCopy, SafeSince, RowsOf, ByName;
    ghost var known := ByName(models);
    var answer := Arrange(models, sorted);
    SafeFromNow(known, source.tables, target.history);
    if answer.Cycle? {
      return RelationCycle(answer.path);
    }
    var occupied := FindOccupied(answer.names, target);
    if occupied != [] {
      assert occupied[0] in occupied;
      return Occupied(occupied);
    }
    assert NoRows(known, target.tables) by {
      forall m | m in known
        ensures RowsOf(target.tables, m) == []
      {
        assert m !in occupied;
      }
    }
    outcome := CopyAll(known, answer.names, source, target, batchSize);
  }
}
