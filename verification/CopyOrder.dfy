/** Which model is copied when: a depth-first search that gives up on a cycle. */
module CopyOrder {
  import opened Wrappers

  /** A model with the names its rows refer to. */
  datatype Model = Model(name: string, dependsOn: seq<string>)

  /** A name given twice stands for the last model of that name. */
  function ByName(models: seq<Model>): (m: map<string, Model>) {
    if models == [] then map[]
    else ByName(models[..|models| - 1])[models[|models| - 1].name := models[|models| - 1]]
  }

  lemma {:induction false} EveryModelIsKnown(models: seq<Model>, model: Model)
    requires model in models
    ensures model.name in ByName(models)
  {
    var last := |models| - 1;
    if model != models[last] {
      assert models == models[..last] + [models[last]];
      EveryModelIsKnown(models[..last], model);
    }
  }

  lemma {:induction false} KnownIsAModel(models: seq<Model>, name: string)
    requires name in ByName(models)
    ensures ByName(models)[name] in models && ByName(models)[name].name == name
  {
    var last := |models| - 1;
    if name != models[last].name {
      KnownIsAModel(models[..last], name);
    }
  }

  /** `a` depends on `b`, and both are known. */
  predicate Edge(known: map<string, Model>, a: string, b: string) {
    a in known && b in known && b in known[a].dependsOn
  }

  ghost predicate Chain(known: map<string, Model>, p: seq<string>) {
    forall k :: 0 <= k < |p| - 1 ==> Edge(known, p[k], p[k + 1])
  }

  /** A chain of dependencies that comes back to where it started. */
  ghost predicate Loop(known: map<string, Model>, p: seq<string>) {
    |p| >= 2 && Chain(known, p) && p[0] == p[|p| - 1]
  }

  ghost predicate HasCycle(known: map<string, Model>) {
    exists p :: Loop(known, p)
  }

  /** The last model of the chain was met earlier on it. */
  ghost predicate Revisits(p: seq<string>) {
    exists k :: 0 <= k < |p| - 1 && p[k] == p[|p| - 1]
  }

  /** Every known dependency of a model stands before it. */
  ghost predicate DependenciesFirst(known: map<string, Model>, order: seq<string>) {
    forall k, d :: 0 <= k < |order| && Edge(known, order[k], d) ==> d in order[..k]
  }

  class Search {
    const known: map<string, Model>
    var done: set<string>
    var visiting: set<string>
    var order: seq<string>

    ghost predicate Valid()
      reads this
    {
      && done !! visiting && done + visiting <= known.Keys
      && Distinct(order) && (forall n :: n in order <==> n in done)
      && DependenciesFirst(known, order)
    }

    constructor (known: map<string, Model>)
      ensures Valid() && this.known == known && done == {} && visiting == {} && order == []
    {
      this.known := known;
      done, visiting, order := {}, {}, [];
    }

    /** Visits `name`, reached along `path`. The answer is None, or the chain the
        error names: it ends in a model that is on the path already. */
    method Visit(name: string, path: seq<string>) returns (error: Option<seq<string>>)
      requires Valid() && name in known && Chain(known, path + [name])
      requires forall n :: n in path <==> n in visiting
      modifies this
      ensures error.Some? ==> Chain(known, error.value) && Revisits(error.value)
      ensures error.None? ==> Valid() && name in done && visiting == old(visiting) && old(order) <= order
      decreases known.Keys - visiting
    {
      if name in done {
        return None;
      }
      if name in visiting {
        var k :| 0 <= k < |path| && path[k] == name;
        var chain := path + [name];
        assert chain[k] == chain[|chain| - 1];
        return Some(chain);
      }
      visiting := visiting + {name};
      var deps := known[name].dependsOn;
      for k := 0 to |deps|
        invariant Valid() && visiting == old(visiting) + {name} && old(order) <= order
        invariant forall j :: 0 <= j < k && deps[j] in known ==> deps[j] in done
      {
        if deps[k] in known {
          ghost var longer := path + [name] + [deps[k]];
          assert Chain(known, longer) by {
            forall j | 0 <= j < |longer| - 1
              ensures Edge(known, longer[j], longer[j + 1])
            {
              if j < |path| { assert Edge(known, (path + [name])[j], (path + [name])[j + 1]); }
            }
          }
          error := Visit(deps[k], path + [name]);
          if error.Some? {
            return;
          }
        }
      }
      visiting := visiting - {name};
      done := done + {name};
      ghost var before := order;
      order := order + [name];
      assert forall d :: Edge(known, name, d) ==> d in before;
      assert forall k :: 0 <= k < |before| ==> order[..k] == before[..k];
      assert order[..|before|] == before;
      return None;
    }
  }

  lemma {:induction false} ChainDescends(known: map<string, Model>, order: seq<string>, p: seq<string>, at: nat)
    requires DependenciesFirst(known, order) && Distinct(order) && Chain(known, p) && |p| >= 2
    requires at < |order| && order[at] == p[0]
    ensures p[|p| - 1] in order[..at]
    decreases |p|
  {
    assert Edge(known, p[0], p[1]);
    assert p[1] in order[..at];
    if |p| > 2 {
      var next :| 0 <= next < at && order[next] == p[1];
      var rest := p[1..];
      forall k | 0 <= k < |rest| - 1
        ensures Edge(known, rest[k], rest[k + 1])
      {
        assert Edge(known, p[k + 1], p[k + 2]);
      }
      ChainDescends(known, order, rest, next);
      assert p[|p| - 1] in order[..next];
    }
  }

  /** Where dependencies can be put first there is no cycle. */
  lemma OrderedHasNoCycle(known: map<string, Model>, order: seq<string>)
    requires DependenciesFirst(known, order) && Distinct(order) && forall n :: n in known ==> n in order
    ensures !HasCycle(known)
  {
    forall p
      ensures !Loop(known, p)
    {
      if Loop(known, p) {
        assert Edge(known, p[0], p[1]);
        var at :| 0 <= at < |order| && order[at] == p[0];
        ChainDescends(known, order, p, at);
        assert false;
      }
    }
  }

  /** A chain ending in a model it already passed holds a cycle. */
  lemma RevisitIsCycle(known: map<string, Model>, p: seq<string>, k: nat)
    requires Chain(known, p) && k < |p| - 1 && p[k] == p[|p| - 1]
    ensures HasCycle(known)
  {
    var loop := p[k..];
    forall j | 0 <= j < |loop| - 1
      ensures Edge(known, loop[j], loop[j + 1])
    {
      assert Edge(known, p[k + j], p[k + j + 1]);
    }
    assert Loop(known, loop);
  }

  datatype Answer = Order(names: seq<string>) | Cycle(path: seq<string>)

  /** `sorted` is the models in whatever order the alphabetical sort gives. The
      answer is every known name once with its dependencies before it, unless the
      relations have a cycle: then, and only then, it is refused. */
  method Arrange(models: seq<Model>, sorted: seq<Model>) returns (answer: Answer)
    requires multiset(sorted) == multiset(models)
    ensures var known := ByName(models);
      && (answer.Cycle? <==> HasCycle(known))
      && (answer.Cycle? ==> Chain(known, answer.path) && Revisits(answer.path))
      && (answer.Order? ==>
            && Distinct(answer.names) && (forall n :: n in answer.names <==> n in known)
            && DependenciesFirst(known, answer.names))
  {
    var known := ByName(models);
    var search := new Search(known);
    for k := 0 to |sorted|
      invariant search.Valid() && search.visiting == {} && search.known == known
      invariant forall j :: 0 <= j < k ==> sorted[j].name in search.done
    {
      assert sorted[k] in multiset(models);
      assert sorted[k] in models;
      EveryModelIsKnown(models, sorted[k]);
      var error := search.Visit(sorted[k].name, []);
      if error.Some? {
        var p := error.value;
        var j :| 0 <= j < |p| - 1 && p[j] == p[|p| - 1];
        RevisitIsCycle(known, p, j);
        return Cycle(p);
      }
    }
    forall n | n in known
      ensures n in search.order
    {
      KnownIsAModel(models, n);
      assert known[n] in multiset(sorted);
      assert known[n] in sorted;
    }
    OrderedHasNoCycle(known, search.order);
    return Order(search.order);
  }
}
