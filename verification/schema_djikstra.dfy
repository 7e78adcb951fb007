/** The join-path search of `schema_djikstra.py`. Despite its name it is neither
    Dijkstra's algorithm nor a breadth-first search: it is a recursive depth-first
    expansion that marks each expanded table in a history dict and keeps, per table, a
    result entry that it replaces only by a strictly lighter candidate. */
module SchemaDjikstra {
  import opened Wrappers
  import opened TableEntities

  /** An entry of the search result (the source's `DjikstraNodes`): the foreign key it was
      reached by, whether that key points at the expanded table, its weight and the table
      it stands for. */
  datatype DjikstraNode = DjikstraNode(data: Option<ForeignKey>, isReference: bool, weight: int,
                                       nodeName: Option<string>)

  /** The default entry every input table starts with. */
  const Unvisited := DjikstraNode(None, false, -1, None)

  /** The entry seeded for the start table. */
  function StartNode(name: string): DjikstraNode
  {
    DjikstraNode(None, false, 0, Some(name))
  }

  /** The error string returned for an empty list of needed tables. */
  const TooFewTablesMessage := "To use this tool you require to give a list of, at least, 2 tables"

  /** The two ways the search ends without a result: the error string for an empty list of
      needed tables, and the KeyError a dict lookup of an unknown table name raises. */
  datatype SearchError = Message(text: string) | KeyError(key: string)

  // ---------------------------------------------------------------------------
  // The schema as a graph

  /** The table a foreign key leads to from the table being expanded: the referenced
      table for the table's own foreign keys, the referencing table for the foreign keys
      that point at it. */
  function Endpoint(fk: ForeignKey, isReference: bool): string
  {
    if isReference then fk.referencingTable else fk.referenceTable
  }

  /** The foreign keys a table's candidates are drawn from: its own foreign keys, or with
      `isReference` those that point at it. */
  function KeysOf(t: Table, isReference: bool): seq<ForeignKey>
  {
    if isReference then Flatten(t.referencesToTable) else Flatten(t.foreignKeys)
  }

  /** The tables a table is joined with through either of its foreign-key dicts. */
  function Neighbours(t: Table): set<string>
  {
    (set fk | fk in Flatten(t.foreignKeys) :: fk.referenceTable)
    + (set fk | fk in Flatten(t.referencesToTable) :: fk.referencingTable)
  }

  /** Every foreign key of every table leads to a table of the graph. */
  predicate SchemaClosed(graph: map<string, Table>)
  {
    forall name :: name in graph ==> Neighbours(graph[name]) <= graph.Keys
  }

  /** The graph of the input tables, by name; a later table overwrites an earlier one with
      the same name. */
  function Index(tables: seq<Table>): (graph: map<string, Table>)
    ensures forall name :: name in graph ==> graph[name].tableName == name
  {
    if tables == [] then map[]
    else Index(tables[..|tables| - 1])[tables[|tables| - 1].tableName := tables[|tables| - 1]]
  }

  /** Every input table name is a key of the graph, and a key maps to the last input table
      with that name. */
  lemma {:induction false} IndexLastWins(tables: seq<Table>)
    ensures forall i :: 0 <= i < |tables| ==> tables[i].tableName in Index(tables)
    ensures forall name :: name in Index(tables) ==> IndexedLast(tables, Index(tables)[name])
  {
    if tables != [] {
      var n := |tables| - 1;
      var prefix := tables[..n];
      IndexLastWins(prefix);
      IndexStep(tables, prefix, Index(prefix), Index(tables));
    }
  }

  /** Table t is an input table that no later input table shares a name with. */
  predicate IndexedLast(tables: seq<Table>, t: Table)
  {
    exists i :: 0 <= i < |tables| && tables[i] == t && LastOfName(tables, i)
  }

  lemma IndexStep(tables: seq<Table>, prefix: seq<Table>, before: map<string, Table>, graph: map<string, Table>)
    requires tables != [] && prefix == tables[..|tables| - 1]
    requires forall i :: 0 <= i < |prefix| ==> prefix[i].tableName in before
    requires forall name :: name in before ==> before[name].tableName == name && IndexedLast(prefix, before[name])
    requires graph == before[tables[|tables| - 1].tableName := tables[|tables| - 1]]
    ensures forall i :: 0 <= i < |tables| ==> tables[i].tableName in graph
    ensures forall name :: name in graph ==> IndexedLast(tables, graph[name])
  {
    var n := |tables| - 1;
    forall i | 0 <= i < n
      ensures tables[i].tableName in graph
    {
      assert prefix[i] == tables[i];
    }
    forall name | name in graph
      ensures IndexedLast(tables, graph[name])
    {
      if name != tables[n].tableName {
        assert IndexedLast(prefix, before[name]);
        var i :| 0 <= i < |prefix| && prefix[i] == before[name] && LastOfName(prefix, i);
        assert tables[i] == prefix[i];
        forall j | i < j < |tables|
          ensures tables[j].tableName != tables[i].tableName
        {
          if j < n {
            assert tables[j] == prefix[j];
          }
        }
      } else {
        assert LastOfName(tables, n);
      }
    }
  }

  /** No later input table than table i has the same name. */
  predicate LastOfName(tables: seq<Table>, i: nat)
    requires i < |tables|
  {
    forall j :: i < j < |tables| ==> tables[j].tableName != tables[i].tableName
  }

  /** A path of the graph: consecutive tables are joined by a foreign key of the first. */
  ghost predicate IsPath(graph: map<string, Table>, p: seq<string>)
  {
    |p| > 0
    && (forall i :: 0 <= i < |p| ==> p[i] in graph)
    && (forall i :: 0 <= i < |p| - 1 ==> p[i + 1] in Neighbours(graph[p[i]]))
  }

  ghost predicate Reachable(graph: map<string, Table>, from: string, to: string)
  {
    exists p :: IsPath(graph, p) && p[0] == from && p[|p| - 1] == to
  }

  lemma ReachableStep(graph: map<string, Table>, from: string, via: string, to: string)
    requires Reachable(graph, from, via)
    requires via in graph && to in graph && to in Neighbours(graph[via])
    ensures Reachable(graph, from, to)
  {
    var p :| IsPath(graph, p) && p[0] == from && p[|p| - 1] == via;
    var q := p + [to];
    assert IsPath(graph, q);
  }

  /** A set of tables that holds the start and every neighbour of its members holds every
      table of every path from the start. */
  lemma {:induction false} ClosedSetHoldsPaths(graph: map<string, Table>, s: set<string>, p: seq<string>)
    requires forall x :: x in s ==> x in graph && Neighbours(graph[x]) <= s
    requires IsPath(graph, p) && p[0] in s
    ensures forall i :: 0 <= i < |p| ==> p[i] in s
    decreases |p|
  {
    if |p| > 1 {
      var prefix := p[..|p| - 1];
      assert IsPath(graph, prefix);
      ClosedSetHoldsPaths(graph, s, prefix);
      assert p[|p| - 2] == prefix[|prefix| - 1];
    }
  }

  // ---------------------------------------------------------------------------
  // Candidate collection

  function CandidateNode(fk: ForeignKey, isReference: bool, weight: int): DjikstraNode
  {
    DjikstraNode(Some(fk), isReference, weight + 1, Some(Endpoint(fk, isReference)))
  }

  /** The candidates one list of foreign keys yields, in list order: a node for each key
      whose other table has not been expanded; the first key whose other table is not in
      the history raises a KeyError. */
  function Collect(fks: seq<ForeignKey>, isReference: bool, history: map<string, bool>, weight: int)
    : Result<seq<DjikstraNode>, string>
  {
    if fks == [] then Ok([])
    else
      var n := |fks| - 1;
      var fk := fks[n];
      match Collect(fks[..n], isReference, history, weight)
      case Err(e) => Err(e)
      case Ok(nodes) =>
        if Endpoint(fk, isReference) !in history then Err(Endpoint(fk, isReference))
        else if history[Endpoint(fk, isReference)] then Ok(nodes)
        else Ok(nodes + [CandidateNode(fk, isReference, weight)])
  }

  /** Collection fails exactly when some key leads to a table missing from the history,
      and then with the first such table. */
  lemma {:induction false} CollectFails(fks: seq<ForeignKey>, isReference: bool, history: map<string, bool>,
                                        weight: int)
    ensures var r := Collect(fks, isReference, history, weight);
      && (r.Ok? <==> forall fk :: fk in fks ==> Endpoint(fk, isReference) in history)
      && (r.Err? ==> r.error !in history)
      && (r.Err? ==> exists i :: 0 <= i < |fks| && Endpoint(fks[i], isReference) == r.error
                       && forall k :: 0 <= k < i ==> Endpoint(fks[k], isReference) in history)
    decreases |fks|
  {
    if fks != [] {
      var n := |fks| - 1;
      assert fks == fks[..n] + [fks[n]];
      CollectFails(fks[..n], isReference, history, weight);
      var r := Collect(fks[..n], isReference, history, weight);
      if r.Err? {
        var i :| 0 <= i < n && Endpoint(fks[..n][i], isReference) == r.error
                 && forall k :: 0 <= k < i ==> Endpoint(fks[..n][k], isReference) in history;
        assert Endpoint(fks[i], isReference) == r.error;
      } else {
        assert forall k :: 0 <= k < n ==> fks[..n][k] in fks[..n];
      }
    }
  }

  /** On success the candidates are exactly the keys leading to unexpanded tables. */
  lemma {:induction false} CollectNodes(fks: seq<ForeignKey>, isReference: bool, history: map<string, bool>,
                                        weight: int)
    requires Collect(fks, isReference, history, weight).Ok?
    ensures var nodes := Collect(fks, isReference, history, weight).value;
      && (forall n :: n in nodes ==>
            exists fk :: fk in fks && n == CandidateNode(fk, isReference, weight)
                         && Endpoint(fk, isReference) in history && !history[Endpoint(fk, isReference)])
      && (forall fk :: fk in fks && Endpoint(fk, isReference) in history && !history[Endpoint(fk, isReference)] ==>
            CandidateNode(fk, isReference, weight) in nodes)
    decreases |fks|
  {
    if fks != [] {
      var k := |fks| - 1;
      var fk := fks[k];
      var prefix := fks[..k];
      assert fks == prefix + [fk];
      CollectNodes(prefix, isReference, history, weight);
      var nodes := Collect(prefix, isReference, history, weight).value;
      var all := Collect(fks, isReference, history, weight).value;
      assert all == nodes || all == nodes + [CandidateNode(fk, isReference, weight)];
      forall n | n in all
        ensures exists g :: g in fks && n == CandidateNode(g, isReference, weight)
                            && Endpoint(g, isReference) in history && !history[Endpoint(g, isReference)]
      {
        if n !in nodes {
          assert n == CandidateNode(fk, isReference, weight) && fk in fks;
        } else {
          var g :| g in prefix && n == CandidateNode(g, isReference, weight)
                   && Endpoint(g, isReference) in history && !history[Endpoint(g, isReference)];
          assert g in fks;
        }
      }
      forall g | g in fks && Endpoint(g, isReference) in history && !history[Endpoint(g, isReference)]
        ensures CandidateNode(g, isReference, weight) in all
      {
        if g != fk {
          assert g in prefix;
        }
      }
    }
  }

  /** Collecting one more key. */
  lemma CollectSnoc(prefix: seq<ForeignKey>, fk: ForeignKey, isReference: bool, history: map<string, bool>,
                    weight: int)
    ensures var r := Collect(prefix, isReference, history, weight);
      var e := Endpoint(fk, isReference);
      Collect(prefix + [fk], isReference, history, weight) ==
        if r.Err? then r
        else if e !in history then Err(e)
        else if history[e] then r
        else Ok(r.value + [CandidateNode(fk, isReference, weight)])
  {
    assert (prefix + [fk])[..|prefix|] == prefix;
  }

  /** Once a prefix of the keys raises, the whole list raises the same error. */
  lemma {:induction false} CollectErrExtends(a: seq<ForeignKey>, b: seq<ForeignKey>, isReference: bool,
                                             history: map<string, bool>, weight: int)
    requires Collect(a, isReference, history, weight).Err?
    ensures Collect(a + b, isReference, history, weight) == Collect(a, isReference, history, weight)
    decreases |b|
  {
    if b == [] {
      assert a + b == a;
    } else {
      var n := |b| - 1;
      assert (a + b)[..|a + b| - 1] == a + b[..n];
      CollectErrExtends(a, b[..n], isReference, history, weight);
    }
  }

  /** The candidates of a table: those from its own foreign keys, then those from the
      foreign keys that point at it. */
  function Candidates(t: Table, history: map<string, bool>, weight: int): Result<seq<DjikstraNode>, string>
  {
    match Collect(Flatten(t.foreignKeys), false, history, weight)
    case Err(e) => Err(e)
    case Ok(fromForward) =>
      match Collect(Flatten(t.referencesToTable), true, history, weight)
      case Err(e) => Err(e)
      case Ok(fromBackward) => Ok(fromForward + fromBackward)
  }

  /** A table's candidates fail exactly when one of its neighbours is missing from the
      history, and then with such a neighbour. */
  lemma CandidatesFail(t: Table, history: map<string, bool>, weight: int)
    ensures var r := Candidates(t, history, weight);
      && (r.Ok? <==> Neighbours(t) <= history.Keys)
      && (r.Err? ==> r.error !in history && r.error in Neighbours(t))
  {
    var forward := Flatten(t.foreignKeys);
    var backward := Flatten(t.referencesToTable);
    CollectFails(forward, false, history, weight);
    CollectFails(backward, true, history, weight);
    var f := Collect(forward, false, history, weight);
    var b := Collect(backward, true, history, weight);
    if f.Err? {
      var i :| 0 <= i < |forward| && Endpoint(forward[i], false) == f.error;
      assert forward[i] in forward;
    } else if b.Err? {
      var i :| 0 <= i < |backward| && Endpoint(backward[i], true) == b.error;
      assert backward[i] in backward;
    }
  }

  /** On success each candidate is a node one step heavier for an unexpanded neighbour,
      reached by a key leading to it; every unexpanded neighbour has one; and the nodes
      of foreign keys come before those of references. */
  lemma CandidatesFound(t: Table, history: map<string, bool>, weight: int)
    requires Candidates(t, history, weight).Ok?
    ensures var nodes := Candidates(t, history, weight).value;
      && (forall n :: n in nodes ==>
            n.weight == weight + 1 && n.nodeName.Some? && n.nodeName.value in Neighbours(t)
            && n.nodeName.value in history && !history[n.nodeName.value]
            && n.data.Some? && Endpoint(n.data.value, n.isReference) == n.nodeName.value
            && n.data.value in KeysOf(t, n.isReference))
      && (forall y :: y in Neighbours(t) && y in history && !history[y] ==>
            exists n :: n in nodes && n.nodeName == Some(y))
      && (forall i, j :: 0 <= i < j < |nodes| && nodes[i].isReference ==> nodes[j].isReference)
  {
    var forward := Flatten(t.foreignKeys);
    var backward := Flatten(t.referencesToTable);
    var f := Collect(forward, false, history, weight);
    var b := Collect(backward, true, history, weight);
    CollectNodes(forward, false, history, weight);
    CollectNodes(backward, true, history, weight);
    assert forall y :: y in Neighbours(t) ==>
      (exists fk :: fk in forward && Endpoint(fk, false) == y)
      || (exists fk :: fk in backward && Endpoint(fk, true) == y);
    assert forall i :: 0 <= i < |f.value| ==> f.value[i] in f.value;
    assert forall i :: 0 <= i < |b.value| ==> b.value[i] in b.value;
  }

  /** The two loops of build_djikstra that fill its local candidate list. */
  method CollectCandidates(t: Table, history: map<string, bool>, weight: int)
    returns (r: Result<seq<DjikstraNode>, string>)
    ensures r == Candidates(t, history, weight)
  {
    var forward := CollectFrom(t.foreignKeys, false, history, weight);
    if forward.Err? {
      return Err(forward.error);
    }
    var backward := CollectFrom(t.referencesToTable, true, history, weight);
    if backward.Err? {
      return Err(backward.error);
    }
    r := Ok(forward.value + backward.value);
  }

  /** One of those loops: over the dict's entries, then over each entry's keys. */
  method CollectFrom(d: FkDict, isReference: bool, history: map<string, bool>, weight: int)
    returns (r: Result<seq<DjikstraNode>, string>)
    ensures r == Collect(Flatten(d), isReference, history, weight)
  {
    var nodes := [];
    var i := 0;
    while i < |d|
      invariant 0 <= i <= |d|
      invariant Collect(Flatten(d[..i]), isReference, history, weight) == Ok(nodes)
    {
      var fks := d[i].1;
      ghost var done := Flatten(d[..i]);
      var j := 0;
      assert done + fks[..0] == done;
      while j < |fks|
        invariant 0 <= j <= |fks|
        invariant Collect(done + fks[..j], isReference, history, weight) == Ok(nodes)
      {
        var fk := fks[j];
        var next := Endpoint(fk, isReference);
        assert done + fks[..j + 1] == (done + fks[..j]) + [fk];
        CollectSnoc(done + fks[..j], fk, isReference, history, weight);
        if next !in history {
          CollectFromStops(d, i, j, isReference, history, weight);
          return Err(next);
        }
        if !history[next] {
          nodes := nodes + [CandidateNode(fk, isReference, weight)];
        }
        j := j + 1;
      }
      FlattenStep(d, i);
      assert fks[..j] == fks;
      i := i + 1;
    }
    assert d[..i] == d;
    r := Ok(nodes);
  }

  /** The keys of the first entries of a dict, then those of the next entry. */
  lemma FlattenStep(d: FkDict, i: nat)
    requires i < |d|
    ensures Flatten(d[..i + 1]) == Flatten(d[..i]) + d[i].1
  {
    assert d[..i + 1][..i] == d[..i];
  }

  /** A KeyError on key j of entry i is the error of the whole dict. */
  lemma CollectFromStops(d: FkDict, i: nat, j: nat, isReference: bool, history: map<string, bool>, weight: int)
    requires i < |d| && j < |d[i].1|
    requires Collect(Flatten(d[..i]) + d[i].1[..j], isReference, history, weight).Ok?
    requires Endpoint(d[i].1[j], isReference) !in history
    ensures Collect(Flatten(d), isReference, history, weight) == Err(Endpoint(d[i].1[j], isReference))
  {
    var done := Flatten(d[..i]);
    var fks := d[i].1;
    assert done + fks[..j + 1] == (done + fks[..j]) + [fks[j]];
    CollectSnoc(done + fks[..j], fks[j], isReference, history, weight);
    FlattenSplit(d, i, j);
    CollectErrExtends(done + fks[..j + 1], fks[j + 1..] + Flatten(d[i + 1..]), isReference, history, weight);
  }

  /** The keys of a dict, cut after key j of entry i. */
  lemma FlattenSplit(d: FkDict, i: nat, j: nat)
    requires i < |d| && j < |d[i].1|
    ensures Flatten(d) == (Flatten(d[..i]) + d[i].1[..j + 1]) + (d[i].1[j + 1..] + Flatten(d[i + 1..]))
  {
    var fks := d[i].1;
    var done := Flatten(d[..i]);
    var rest := Flatten(d[i + 1..]);
    FlattenAt(d, i);
    assert fks == fks[..j + 1] + fks[j + 1..];
    assert done + fks + rest == (done + fks[..j + 1]) + (fks[j + 1..] + rest);
  }

  /** The keys of a dict: those before entry i, those of entry i, those after it. */
  lemma FlattenAt(d: FkDict, i: nat)
    requires i < |d|
    ensures Flatten(d) == Flatten(d[..i]) + d[i].1 + Flatten(d[i + 1..])
  {
    FlattenCut(d, i);
    FlattenFirst(d[i..]);
    assert d[i..][1..] == d[i + 1..];
  }

  lemma FlattenCut(d: FkDict, i: nat)
    requires i <= |d|
    ensures Flatten(d) == Flatten(d[..i]) + Flatten(d[i..])
  {
    var a, b := d[..i], d[i..];
    assert a + b == d;
    FlattenAppend(a, b);
  }

  lemma FlattenFirst(d: FkDict)
    requires d != []
    ensures Flatten(d) == d[0].1 + Flatten(d[1..])
  {
    var a, b := [d[0]], d[1..];
    assert a + b == d;
    FlattenAppend(a, b);
    FlattenSingle(d[0].0, d[0].1);
  }

  // ---------------------------------------------------------------------------
  // Termination measure

  /** The tables not yet expanded. */
  ghost function Unexpanded(history: map<string, bool>): set<string>
  {
    set k | k in history && !history[k]
  }

  /** Twice the number of unexpanded tables, plus one when the table about to be expanded
      has been expanded already. Every recursive call of build_djikstra lowers it. */
  ghost function Measure(history: map<string, bool>, name: string): nat
  {
    2 * |Unexpanded(history)| + (if name in history && history[name] then 1 else 0)
  }

  lemma {:induction false} SubsetCardinality(a: set<string>, b: set<string>)
    requires a <= b
    ensures |a| <= |b|
    decreases |a|
  {
    if a != {} {
      var x :| x in a;
      SubsetCardinality(a - {x}, b - {x});
    }
  }

  /** The measure drops from a call to each of its recursive calls: the call's candidates
      were unexpanded when collected, and the call has marked its own table since. */
  lemma MeasureDecreases(before: map<string, bool>, now: map<string, bool>, name: string, next: string)
    requires name in before && next in before && !before[next]
    requires now.Keys == before.Keys
    requires Unexpanded(now) <= Unexpanded(before) - {name}
    ensures Measure(now, next) < Measure(before, name)
  {
    var u0 := Unexpanded(before);
    var u := Unexpanded(now);
    if !before[name] {
      assert name in u0;
      SubsetCardinality(u, u0 - {name});
    } else if now[next] {
      assert next in u0 && next !in u;
      SubsetCardinality(u, u0 - {next});
    } else {
      SubsetCardinality(u, u0);
    }
  }

  lemma MonotoneUnexpanded(before: map<string, bool>, now: map<string, bool>)
    requires now.Keys == before.Keys
    requires forall k :: k in before && before[k] ==> now[k]
    ensures Unexpanded(now) <= Unexpanded(before)
  {
  }

  // ---------------------------------------------------------------------------
  // Invariants of the search state, stated on its values

  /** History flags only go from False to True, and no table is added or removed. */
  ghost predicate Grows(before: map<string, bool>, now: map<string, bool>)
  {
    now.Keys == before.Keys && forall k :: k in before && before[k] ==> now[k]
  }

  /** Every neighbour of a table has been expanded. */
  ghost predicate NeighboursExpanded(graph: map<string, Table>, history: map<string, bool>, name: string)
  {
    name in graph && forall y :: y in Neighbours(graph[name]) ==> y in history && history[y]
  }

  /** Every table expanded between two states, except possibly one, has all its
      neighbours expanded in the later state. */
  ghost predicate ClosedSince(graph: map<string, Table>, before: map<string, bool>, now: map<string, bool>,
                              except: Option<string>)
  {
    forall x :: x in graph && x in before && !before[x] && x in now && now[x] && Some(x) != except ==>
      NeighboursExpanded(graph, now, x)
  }

  /** Some table reachable from the start has a foreign key leading to the given table. */
  ghost predicate DanglingFrom(graph: map<string, Table>, origin: string, key: string)
  {
    exists t :: t in graph && Reachable(graph, origin, t) && key in Neighbours(graph[t])
  }

  /** Every foreign key of every table reachable from the start leads to a table of the
      graph. */
  ghost predicate ReachableClosed(graph: map<string, Table>, origin: string)
  {
    forall k :: k in graph && Reachable(graph, origin, k) ==> Neighbours(graph[k]) <= graph.Keys
  }

  /** A key reachable from the start that leads outside the graph opens it. */
  lemma DanglingOpens(graph: map<string, Table>, origin: string, key: string)
    requires DanglingFrom(graph, origin, key) && key !in graph
    ensures !ReachableClosed(graph, origin)
  {
    var t :| t in graph && Reachable(graph, origin, t) && key in Neighbours(graph[t]);
  }

  /** Every expanded table is reachable from the start. */
  ghost predicate ExpandedReachable(graph: map<string, Table>, origin: string, history: map<string, bool>)
  {
    forall k :: k in history && history[k] ==> Reachable(graph, origin, k)
  }

  /** Every table with a non-negative weight, except possibly one, has been expanded. */
  ghost predicate RecordedExpanded(graph: map<string, Table>, entries: map<string, DjikstraNode>,
                                   history: map<string, bool>, except: string)
  {
    forall k :: k in graph && k in entries && k in history && k != except && entries[k].weight >= 0 ==> history[k]
  }

  /** Every expanded table has a non-negative weight. */
  ghost predicate ExpandedRecorded(graph: map<string, Table>, entries: map<string, DjikstraNode>,
                                   history: map<string, bool>)
  {
    forall k :: k in graph && k in history && k in entries && history[k] ==> entries[k].weight >= 0
  }

  /** No stored weight exceeds w. */
  ghost predicate StoredAtMost(entries: map<string, DjikstraNode>, w: int)
  {
    forall k :: k in entries ==> entries[k].weight <= w
  }

  /** Between two states of the result: the same tables; a non-negative weight never grows
      nor turns negative; a changed entry is a candidate for its own table, heavier than
      the given depth, that records a foreign key leading to that table. */
  ghost predicate WeightsKept(graph: map<string, Table>, before: map<string, DjikstraNode>, now: map<string, DjikstraNode>, depth: int)
  {
    now.Keys == before.Keys
    && (forall k :: k in before && before[k].weight >= 0 ==> 0 <= now[k].weight <= before[k].weight)
    && (forall k :: k in now && now[k] != before[k] ==> RecordsKey(graph, now[k], k) && now[k].weight > depth)
  }

  /** An entry for table k that a candidate put there: it names k and holds the foreign
      key k was reached by, a key of some table of the graph that leads to k. */
  ghost predicate RecordsKey(graph: map<string, Table>, node: DjikstraNode, k: string)
  {
    node.nodeName == Some(k) && node.data.Some? && Endpoint(node.data.value, node.isReference) == k
    && exists p :: p in graph && node.data.value in KeysOf(graph[p], node.isReference)
  }

  lemma GrowsTransitive(a: map<string, bool>, b: map<string, bool>, c: map<string, bool>)
    requires Grows(a, b) && Grows(b, c)
    ensures Grows(a, c)
  {
  }

  lemma ClosedSinceStep(graph: map<string, Table>, before: map<string, bool>, mid: map<string, bool>,
                        now: map<string, bool>, name: string)
    requires Grows(before, mid) && Grows(mid, now)
    requires ClosedSince(graph, before, mid, Some(name)) && ClosedSince(graph, mid, now, None)
    ensures ClosedSince(graph, before, now, Some(name))
  {
    forall x | x in graph && x in before && !before[x] && x in now && now[x] && Some(x) != Some(name)
      ensures NeighboursExpanded(graph, now, x)
    {
      if mid[x] {
        assert NeighboursExpanded(graph, mid, x);
      } else {
        assert Some(x) != None;
      }
    }
  }

  lemma WeightsKeptTransitive(graph: map<string, Table>, a: map<string, DjikstraNode>, b: map<string, DjikstraNode>,
                              c: map<string, DjikstraNode>, depth: int)
    requires WeightsKept(graph, a, b, depth) && (WeightsKept(graph, b, c, depth) || WeightsKept(graph, b, c, depth + 1))
    ensures WeightsKept(graph, a, c, depth)
  {
  }

  /** Once the one excepted table has its neighbours expanded, nothing is excepted. */
  lemma ClosedSinceClose(graph: map<string, Table>, before: map<string, bool>, now: map<string, bool>,
                         name: string)
    requires ClosedSince(graph, before, now, Some(name)) && NeighboursExpanded(graph, now, name)
    ensures ClosedSince(graph, before, now, None)
  {
  }

  /** Replacing a table's entry by its candidate keeps the invariants of the result and
      gives the table a non-negative weight when the test is sentinel-aware. */
  lemma ReplaceStep(graph: map<string, Table>, history: map<string, bool>, start: map<string, DjikstraNode>,
                    before: map<string, DjikstraNode>, now: map<string, DjikstraNode>,
                    name: string, node: DjikstraNode, depth: nat, sentinelAware: bool)
    requires node.nodeName.Some? && node.nodeName.value in before && node.weight == depth + 1
    requires RecordsKey(graph, node, node.nodeName.value)
    requires name in history && history[name]
    requires WeightsKept(graph, start, before, depth) && RecordedExpanded(graph, before, history, name)
    requires sentinelAware ==> ExpandedRecorded(graph, before, history)
    requires var stored := before[node.nodeName.value];
      now == if (sentinelAware && stored.weight < 0) || stored.weight > node.weight
             then before[node.nodeName.value := node] else before
    ensures WeightsKept(graph, start, now, depth)
    ensures RecordedExpanded(graph, now, history, node.nodeName.value)
    ensures sentinelAware ==> ExpandedRecorded(graph, now, history) && now[node.nodeName.value].weight >= 0
    ensures !sentinelAware && StoredAtMost(before, depth) ==> now == before
  {
  }

  /** A state that has kept the invariants with nothing changed. */
  lemma KeptReflexive(graph: map<string, Table>, origin: string, history: map<string, bool>,
                      entries: map<string, DjikstraNode>, depth: int, sentinelAware: bool)
    requires ExpandedReachable(graph, origin, history)
    requires sentinelAware ==> ExpandedRecorded(graph, entries, history)
    ensures Kept(graph, origin, history, history, entries, entries, depth, sentinelAware)
  {
  }

  /** The replacement of a candidate's entry followed by the candidate's own expansion
      keeps what the parent call promises. */
  lemma KeptAfterChild(graph: map<string, Table>, origin: string, h: map<string, bool>, history: map<string, bool>,
                       entries: map<string, DjikstraNode>, replaced: map<string, DjikstraNode>,
                       now: map<string, DjikstraNode>, depth: int, sentinelAware: bool)
    requires WeightsKept(graph, entries, replaced, depth)
    requires !sentinelAware && StoredAtMost(entries, depth) ==> replaced == entries
    requires Kept(graph, origin, h, history, replaced, now, depth + 1, sentinelAware)
    ensures Kept(graph, origin, h, history, entries, now, depth, sentinelAware)
  {
    WeightsKeptTransitive(graph, entries, replaced, now, depth);
  }

  /** What build_djikstra knows of each of its candidates. */
  ghost predicate CandidateList(graph: map<string, Table>, name: string, before: map<string, bool>,
                                depth: int, nodes: seq<DjikstraNode>)
    requires name in graph
  {
    forall j :: 0 <= j < |nodes| ==>
      nodes[j].nodeName.Some? && nodes[j].nodeName.value in before && !before[nodes[j].nodeName.value]
      && nodes[j].nodeName.value in Neighbours(graph[name]) && nodes[j].weight == depth + 1
      && RecordsKey(graph, nodes[j], nodes[j].nodeName.value)
  }

  lemma CandidatesListed(graph: map<string, Table>, name: string, before: map<string, bool>, depth: int,
                         nodes: seq<DjikstraNode>)
    requires name in graph && Candidates(graph[name], before, depth) == Ok(nodes)
    ensures CandidateList(graph, name, before, depth, nodes)
  {
    CandidatesFound(graph[name], before, depth);
    assert forall j :: 0 <= j < |nodes| ==> nodes[j] in nodes;
  }

  /** Marking the table being expanded keeps the invariants of the search. */
  lemma MarkStart(graph: map<string, Table>, origin: string, entries: map<string, DjikstraNode>,
                  before: map<string, bool>, name: string, sentinelAware: bool, depth: int)
    requires name in before && Reachable(graph, origin, name) && ExpandedReachable(graph, origin, before)
    requires RecordedExpanded(graph, entries, before, name)
    requires sentinelAware ==> ExpandedRecorded(graph, entries, before) && name in entries && entries[name].weight >= 0
    ensures Kept(graph, origin, before, before[name := true], entries, entries, depth, sentinelAware)
    ensures Settled(graph, before, before[name := true], entries, name)
  {
  }

  /** The first candidates of a list, as many as given, are expanded. */
  ghost predicate ExpandedUpTo(nodes: seq<DjikstraNode>, n: int, history: map<string, bool>)
  {
    forall j :: 0 <= j < n && j < |nodes| ==>
      nodes[j].nodeName.Some? && nodes[j].nodeName.value in history && history[nodes[j].nodeName.value]
  }

  lemma ExpandedUpToStep(nodes: seq<DjikstraNode>, i: nat, before: map<string, bool>, now: map<string, bool>)
    requires i < |nodes| && ExpandedUpTo(nodes, i, before) && Grows(before, now)
    requires nodes[i].nodeName.Some? && nodes[i].nodeName.value in now && now[nodes[i].nodeName.value]
    ensures ExpandedUpTo(nodes, i + 1, now)
  {
    forall j | 0 <= j < i + 1 && j < |nodes|
      ensures nodes[j].nodeName.Some? && nodes[j].nodeName.value in now && now[nodes[j].nodeName.value]
    {
      if j < i {
        var x := nodes[j].nodeName.value;
        assert x in before && before[x];
      }
    }
  }

  /** What build_djikstra knows of one of its candidates. */
  lemma NodeOfList(graph: map<string, Table>, name: string, before: map<string, bool>, depth: int,
                   nodes: seq<DjikstraNode>, i: nat)
    requires name in graph && CandidateList(graph, name, before, depth, nodes) && i < |nodes|
    ensures nodes[i].nodeName.Some? && nodes[i].nodeName.value in before && !before[nodes[i].nodeName.value]
    ensures nodes[i].nodeName.value in Neighbours(graph[name]) && nodes[i].weight == depth + 1
    ensures RecordsKey(graph, nodes[i], nodes[i].nodeName.value)
  {
  }

  /** The invariants a call of build_djikstra keeps whether or not it fails: flags only
      grow, expanded tables are reachable and (sentinel-aware) recorded, recorded weights
      are kept, and the as-written test never replaces an entry no heavier than depth. */
  ghost predicate Kept(graph: map<string, Table>, origin: string, before: map<string, bool>,
                       history: map<string, bool>, start: map<string, DjikstraNode>,
                       entries: map<string, DjikstraNode>, depth: int, sentinelAware: bool)
  {
    Grows(before, history)
    && ExpandedReachable(graph, origin, history)
    && (sentinelAware ==> ExpandedRecorded(graph, entries, history))
    && WeightsKept(graph, start, entries, depth)
    && (!sentinelAware && StoredAtMost(start, depth) ==> entries == start)
  }

  /** The invariants of the result loop of build_djikstra while no table is missing. */
  ghost predicate Settled(graph: map<string, Table>, before: map<string, bool>, history: map<string, bool>,
                          entries: map<string, DjikstraNode>, name: string)
  {
    name in history && history[name]
    && Unexpanded(history) <= Unexpanded(before) - {name}
    && RecordedExpanded(graph, entries, history, name)
    && ClosedSince(graph, before, history, Some(name))
  }

  /** One iteration of the result loop keeps the loop's invariants. */
  lemma ExpandStep(graph: map<string, Table>, origin: string, before: map<string, bool>, name: string,
                   depth: int, sentinelAware: bool, start: map<string, DjikstraNode>,
                   h: map<string, bool>, entries: map<string, DjikstraNode>,
                   history: map<string, bool>, now: map<string, DjikstraNode>, ok: bool)
    requires Kept(graph, origin, before, h, start, entries, depth, sentinelAware)
    requires Settled(graph, before, h, entries, name)
    requires Kept(graph, origin, h, history, entries, now, depth, sentinelAware)
    requires ok ==> RecordedExpanded(graph, now, history, name) && ClosedSince(graph, h, history, None)
    ensures Kept(graph, origin, before, history, start, now, depth, sentinelAware)
    ensures ok ==> Settled(graph, before, history, now, name)
  {
    GrowsTransitive(before, h, history);
    WeightsKeptTransitive(graph, start, entries, now, depth);
    if ok {
      MonotoneUnexpanded(h, history);
      ClosedSinceStep(graph, before, h, history, name);
    }
  }

  /** Once every candidate of a table is expanded, so is every neighbour of the table. */
  lemma CandidatesCover(t: Table, before: map<string, bool>, weight: int, nodes: seq<DjikstraNode>,
                        now: map<string, bool>)
    requires Candidates(t, before, weight) == Ok(nodes)
    requires Grows(before, now)
    requires forall j :: 0 <= j < |nodes| ==>
      nodes[j].nodeName.Some? && nodes[j].nodeName.value in now && now[nodes[j].nodeName.value]
    ensures forall y :: y in Neighbours(t) ==> y in now && now[y]
  {
    CandidatesFail(t, before, weight);
    CandidatesFound(t, before, weight);
    forall y | y in Neighbours(t)
      ensures y in now && now[y]
    {
      if !before[y] {
        var n :| n in nodes && n.nodeName == Some(y);
        var j :| 0 <= j < |nodes| && nodes[j] == n;
      }
    }
  }

  // ---------------------------------------------------------------------------
  // The search state

  class Djikstra {
    /** The expanded flag of each table. */
    var history: map<string, bool>
    /** The tables by name. */
    var graph: map<string, Table>
    /** The result entries. */
    var shortestPath: map<string, DjikstraNode>
    /** Whether an entry still holding the sentinel weight is replaced by any candidate
        (the corrected replacement test), rather than only by a strictly lighter one (the
        test as written). */
    const sentinelAware: bool
    /** The start table of the search. */
    ghost const origin: string

    ghost predicate Valid()
      reads this
    {
      history.Keys == graph.Keys && graph.Keys <= shortestPath.Keys
    }

    constructor (graph: map<string, Table>, history: map<string, bool>,
                 shortestPath: map<string, DjikstraNode>, sentinelAware: bool, ghost origin: string)
      ensures this.graph == graph && this.history == history && this.shortestPath == shortestPath
      ensures this.sentinelAware == sentinelAware && this.origin == origin
    {
      this.graph := graph;
      this.history := history;
      this.shortestPath := shortestPath;
      this.sentinelAware := sentinelAware;
      this.origin := origin;
    }

    /** The replacement test of the result loop. */
    function Replaces(stored: DjikstraNode, candidate: DjikstraNode): bool
      reads this
    {
      (sentinelAware && stored.weight < 0) || stored.weight > candidate.weight
    }

    /** build_djikstra: expand the table of `act`. The weight of `act` is its recursion
        depth, and depth plus the termination measure never exceeds twice the number of
        tables. On success the table and every neighbour of it are expanded, and so is
        every neighbour of each table this call expanded for the first time. */
    method BuildDjikstra(act: DjikstraNode, ghost depth: nat) returns (missing: Option<string>)
      requires Valid()
      requires act.nodeName.Some? && act.nodeName.value in graph
      requires act.weight == depth
      requires depth + Measure(history, act.nodeName.value) <= 2 * |history.Keys|
      requires Reachable(graph, origin, act.nodeName.value) && ExpandedReachable(graph, origin, history)
      requires RecordedExpanded(graph, shortestPath, history, act.nodeName.value)
      requires sentinelAware ==> ExpandedRecorded(graph, shortestPath, history)
      requires sentinelAware ==> shortestPath[act.nodeName.value].weight >= 0
      modifies this
      decreases Measure(history, act.nodeName.value), 2
      ensures Valid() && graph == old(graph)
      ensures Kept(graph, origin, old(history), history, old(shortestPath), shortestPath, depth, sentinelAware)
      ensures missing.Some? ==> missing.value !in graph && DanglingFrom(graph, origin, missing.value)
      ensures SchemaClosed(graph) ==> missing.None?
      ensures missing.None? ==> history[act.nodeName.value] && NeighboursExpanded(graph, history, act.nodeName.value)
      ensures missing.None? ==> RecordedExpanded(graph, shortestPath, history, act.nodeName.value)
      ensures missing.None? ==> ClosedSince(graph, old(history), history, None)
    {
      var name := act.nodeName.value;
      var currentDistance := act.weight;
      var collected := CollectCandidates(graph[name], history, currentDistance);
      CandidatesFail(graph[name], history, currentDistance);
      if collected.Err? {
        KeptReflexive(graph, origin, history, shortestPath, depth, sentinelAware);
        assert name in graph && Reachable(graph, origin, name) && collected.error in Neighbours(graph[name]);
        return Some(collected.error);
      }
      var nodes := collected.value;
      ghost var before := history;
      CandidatesListed(graph, name, before, depth, nodes);
      history := history[name := true];
      missing := ExpandAll(nodes, depth, name, before);
      if missing.None? {
        assert ExpandedUpTo(nodes, |nodes|, history);
        CandidatesCover(graph[name], before, currentDistance, nodes, history);
        ClosedSinceClose(graph, before, history, name);
      }
    }

    /** The result loop of build_djikstra: every candidate in turn, stopping at the
        first missing table. */
    method ExpandAll(nodes: seq<DjikstraNode>, ghost depth: nat, ghost name: string, ghost before: map<string, bool>)
      returns (missing: Option<string>)
      requires Valid()
      requires name in graph && name in before
      requires CandidateList(graph, name, before, depth, nodes)
      requires history == before[name := true]
      requires depth + Measure(before, name) <= 2 * |history.Keys|
      requires Reachable(graph, origin, name) && ExpandedReachable(graph, origin, before)
      requires RecordedExpanded(graph, shortestPath, before, name)
      requires sentinelAware ==> ExpandedRecorded(graph, shortestPath, before) && shortestPath[name].weight >= 0
      modifies this
      decreases Measure(before, name), 1
      ensures Valid() && graph == old(graph)
      ensures Kept(graph, origin, before, history, old(shortestPath), shortestPath, depth, sentinelAware)
      ensures missing.Some? ==> missing.value !in graph && DanglingFrom(graph, origin, missing.value)
      ensures SchemaClosed(graph) ==> missing.None?
      ensures missing.None? ==> ExpandedUpTo(nodes, |nodes|, history)
      ensures missing.None? ==> Settled(graph, before, history, shortestPath, name)
    {
      MarkStart(graph, origin, shortestPath, before, name, sentinelAware, depth);
      var i := 0;
      while i < |nodes|
        invariant 0 <= i <= |nodes|
        invariant Valid() && graph == old(graph)
        invariant Kept(graph, origin, before, history, old(shortestPath), shortestPath, depth, sentinelAware)
        invariant Settled(graph, before, history, shortestPath, name)
        invariant ExpandedUpTo(nodes, i, history)
      {
        ghost var h := history;
        ghost var entries := shortestPath;
        NodeOfList(graph, name, before, depth, nodes, i);
        var m := ExpandCandidate(nodes[i], depth, name, before);
        ExpandStep(graph, origin, before, name, depth, sentinelAware, old(shortestPath),
                   h, entries, history, shortestPath, m.None?);
        if m.Some? {
          return m;
        }
        ExpandedUpToStep(nodes, i, h, history);
        i := i + 1;
      }
      return None;
    }

    /** One iteration of build_djikstra's result loop: the replacement test on the
        candidate's table, then the recursive expansion of the candidate. */
    method ExpandCandidate(node: DjikstraNode, ghost depth: nat, ghost name: string, ghost before: map<string, bool>)
      returns (missing: Option<string>)
      requires Valid()
      requires node.nodeName.Some? && node.nodeName.value in before && !before[node.nodeName.value]
      requires node.weight == depth + 1 && RecordsKey(graph, node, node.nodeName.value)
      requires name in graph && name in before && node.nodeName.value in Neighbours(graph[name])
      requires Grows(before, history) && history[name]
      requires Unexpanded(history) <= Unexpanded(before) - {name}
      requires depth + Measure(before, name) <= 2 * |history.Keys|
      requires Reachable(graph, origin, name) && ExpandedReachable(graph, origin, history)
      requires RecordedExpanded(graph, shortestPath, history, name)
      requires sentinelAware ==> ExpandedRecorded(graph, shortestPath, history)
      modifies this
      decreases Measure(before, name), 0
      ensures Valid() && graph == old(graph)
      ensures Kept(graph, origin, old(history), history, old(shortestPath), shortestPath, depth, sentinelAware)
      ensures missing.Some? ==> missing.value !in graph && DanglingFrom(graph, origin, missing.value)
      ensures SchemaClosed(graph) ==> missing.None?
      ensures missing.None? ==> history[node.nodeName.value] && RecordedExpanded(graph, shortestPath, history, name)
      ensures missing.None? ==> ClosedSince(graph, old(history), history, None)
    {
      var next := node.nodeName.value;
      ghost var entries := shortestPath;
      if Replaces(shortestPath[next], node) {
        shortestPath := shortestPath[next := node];
      }
      ReplaceStep(graph, history, entries, entries, shortestPath, name, node, depth, sentinelAware);
      MeasureDecreases(before, history, name, next);
      ReachableStep(graph, origin, name, next);
      ghost var h := history;
      ghost var replaced := shortestPath;
      missing := BuildDjikstra(node, depth + 1);
      KeptAfterChild(graph, origin, h, history, entries, replaced, shortestPath, depth, sentinelAware);
    }
  }

  // ---------------------------------------------------------------------------
  // create_djikstra

  /** The loop of create_djikstra over the input tables: the graph by name, every history
      flag False, every entry the default one. */
  method IndexTables(tables: seq<Table>)
    returns (graph: map<string, Table>, history: map<string, bool>, shortestPath: map<string, DjikstraNode>)
    ensures graph == Index(tables)
    ensures history.Keys == graph.Keys && forall k :: k in history ==> !history[k]
    ensures shortestPath.Keys == graph.Keys && forall k :: k in shortestPath ==> shortestPath[k] == Unvisited
  {
    graph, history, shortestPath := map[], map[], map[];
    var i := 0;
    while i < |tables|
      invariant 0 <= i <= |tables|
      invariant graph == Index(tables[..i])
      invariant history.Keys == graph.Keys && forall k :: k in history ==> !history[k]
      invariant shortestPath.Keys == graph.Keys && forall k :: k in shortestPath ==> shortestPath[k] == Unvisited
    {
      var table := tables[i];
      assert tables[..i + 1][..i] == tables[..i];
      shortestPath := shortestPath[table.tableName := Unvisited];
      history := history[table.tableName := false];
      graph := graph[table.tableName := table];
      i := i + 1;
    }
    assert tables[..i] == tables;
  }

  /** The tables whose flag is set. */
  ghost function Expanded(history: map<string, bool>): set<string>
  {
    set k | k in history && history[k]
  }

  /** The seeded state meets the requirements of the first build_djikstra call. */
  lemma SearchStarts(graph: map<string, Table>, history: map<string, bool>, entries: map<string, DjikstraNode>,
                     origin: string, sentinelAware: bool)
    requires origin in graph && history.Keys == graph.Keys && forall k :: k in history ==> !history[k]
    requires entries.Keys == graph.Keys && entries[origin] == StartNode(origin)
    requires forall k :: k in entries && k != origin ==> entries[k] == Unvisited
    ensures Measure(history, origin) <= 2 * |history.Keys|
    ensures Reachable(graph, origin, origin) && ExpandedReachable(graph, origin, history)
    ensures RecordedExpanded(graph, entries, history, origin) && ExpandedRecorded(graph, entries, history)
    ensures StoredAtMost(entries, 0)
  {
    assert IsPath(graph, [origin]);
    assert Unexpanded(history) == history.Keys;
  }

  /** After a successful first build_djikstra call the expanded tables are exactly those
      reachable from the start, and every table with a non-negative weight is expanded. */
  lemma SearchEnds(graph: map<string, Table>, origin: string, history0: map<string, bool>,
                   history: map<string, bool>, start: map<string, DjikstraNode>,
                   entries: map<string, DjikstraNode>, sentinelAware: bool)
    requires history0.Keys == graph.Keys && forall k :: k in history0 ==> !history0[k]
    requires Kept(graph, origin, history0, history, start, entries, 0, sentinelAware)
    requires origin in history && history[origin]
    requires NeighboursExpanded(graph, history, origin) && ClosedSince(graph, history0, history, None)
    requires RecordedExpanded(graph, entries, history, origin)
    requires entries.Keys == graph.Keys
    requires start.Keys == graph.Keys && start[origin] == StartNode(origin)
    requires forall k :: k in start && k != origin ==> start[k] == Unvisited
    ensures forall k :: k in Expanded(history) <==> k in graph && Reachable(graph, origin, k)
    ensures ReachableClosed(graph, origin)
    ensures entries[origin] == StartNode(origin)
    ensures sentinelAware ==> forall k :: k in Expanded(history) && k != origin ==> RecordsKey(graph, entries[k], k)
    ensures forall k :: k in entries && entries[k].weight >= 0 ==> k in Expanded(history)
    ensures sentinelAware ==> forall k :: k in Expanded(history) ==> entries[k].weight >= 0
  {
    var e := Expanded(history);
    forall x | x in e
      ensures x in graph && Neighbours(graph[x]) <= e
    {
      if x != origin {
        assert NeighboursExpanded(graph, history, x);
      }
    }
    forall k | k in graph && Reachable(graph, origin, k)
      ensures k in e
    {
      var p :| IsPath(graph, p) && p[0] == origin && p[|p| - 1] == k;
      ClosedSetHoldsPaths(graph, e, p);
    }
  }

  /** Everything create_djikstra and its corrected variant have in common: index the
      tables, check the needed list, seed the start and run the search with the given
      replacement test. */
  method Search(tables: seq<Table>, tablesNeeded: seq<string>, sentinelAware: bool)
    returns (res: Result<map<string, DjikstraNode>, SearchError>, ghost expanded: set<string>)
    ensures tablesNeeded == [] <==> res == Err(Message(TooFewTablesMessage))
    ensures tablesNeeded != [] && tablesNeeded[0] !in Index(tables) ==> res == Err(KeyError(tablesNeeded[0]))
    ensures tablesNeeded != [] ==>
      (res.Ok? <==> tablesNeeded[0] in Index(tables) && ReachableClosed(Index(tables), tablesNeeded[0]))
    ensures res.Err? && res.error.KeyError? ==>
      tablesNeeded != [] && res.error.key !in Index(tables)
      && (res.error.key == tablesNeeded[0] || DanglingFrom(Index(tables), tablesNeeded[0], res.error.key))
    ensures tablesNeeded != [] && tablesNeeded[0] in Index(tables) && SchemaClosed(Index(tables)) ==> res.Ok?
    ensures res.Ok? ==> tablesNeeded != [] && res.value.Keys == Index(tables).Keys
    ensures res.Ok? ==> forall k :: k in expanded <==> k in Index(tables) && Reachable(Index(tables), tablesNeeded[0], k)
    ensures res.Ok? ==> forall k :: k in res.value && res.value[k].weight >= 0 ==> k in expanded
    ensures res.Ok? ==> res.value[tablesNeeded[0]] == StartNode(tablesNeeded[0])
    ensures res.Ok? && !sentinelAware ==> forall k :: k in res.value && k != tablesNeeded[0] ==> res.value[k] == Unvisited
    ensures res.Ok? && sentinelAware ==> forall k :: k in expanded ==> res.value[k].weight >= 0
    ensures res.Ok? && sentinelAware ==>
      forall k :: k in expanded && k != tablesNeeded[0] ==> RecordsKey(Index(tables), res.value[k], k)
  {
    expanded := {};
    var graph, history, shortestPath := IndexTables(tables);
    if |tablesNeeded| < 1 {
      return Err(Message(TooFewTablesMessage)), expanded;
    }
    var initialTable := tablesNeeded[0];
    shortestPath := shortestPath[initialTable := StartNode(initialTable)];
    if initialTable !in graph {
      return Err(KeyError(initialTable)), expanded;
    }
    var djikstra := new Djikstra(graph, history, shortestPath, sentinelAware, initialTable);
    SearchStarts(graph, history, shortestPath, initialTable, sentinelAware);
    var missing := djikstra.BuildDjikstra(djikstra.shortestPath[initialTable], 0);
    if missing.Some? {
      DanglingOpens(graph, initialTable, missing.value);
      return Err(KeyError(missing.value)), expanded;
    }
    SearchEnds(graph, initialTable, history, djikstra.history, shortestPath, djikstra.shortestPath, sentinelAware);
    expanded := Expanded(djikstra.history);
    res := Ok(djikstra.shortestPath);
  }

  /** create_djikstra as written. On success the result has one entry per input table;
      the start entry is the seeded one and every other entry is still the default one
      (weight -1, no table, no foreign key), although the search expands exactly the
      tables reachable from the start. */
  method CreateDjikstra(tables: seq<Table>, tablesNeeded: seq<string>)
    returns (res: Result<map<string, DjikstraNode>, SearchError>, ghost expanded: set<string>)
    ensures tablesNeeded == [] <==> res == Err(Message(TooFewTablesMessage))
    ensures tablesNeeded != [] && tablesNeeded[0] !in Index(tables) ==> res == Err(KeyError(tablesNeeded[0]))
    ensures tablesNeeded != [] ==>
      (res.Ok? <==> tablesNeeded[0] in Index(tables) && ReachableClosed(Index(tables), tablesNeeded[0]))
    ensures res.Err? && res.error.KeyError? ==>
      tablesNeeded != [] && res.error.key !in Index(tables)
      && (res.error.key == tablesNeeded[0] || DanglingFrom(Index(tables), tablesNeeded[0], res.error.key))
    ensures tablesNeeded != [] && tablesNeeded[0] in Index(tables) && SchemaClosed(Index(tables)) ==> res.Ok?
    ensures res.Ok? ==> tablesNeeded != [] && res.value.Keys == Index(tables).Keys
    ensures res.Ok? ==> forall k :: k in expanded <==> k in Index(tables) && Reachable(Index(tables), tablesNeeded[0], k)
    ensures res.Ok? ==> res.value[tablesNeeded[0]] == StartNode(tablesNeeded[0])
    ensures res.Ok? ==> forall k :: k in res.value && k != tablesNeeded[0] ==> res.value[k] == Unvisited
  {
    res, expanded := Search(tables, tablesNeeded, false);
  }

  /** create_djikstra with the sentinel-aware replacement test: on success a table has a
      non-negative weight exactly when it is reachable from the start, and every other
      reachable table than the start records the foreign key it was reached by. */
  method CreateDjikstraCorrected(tables: seq<Table>, tablesNeeded: seq<string>)
    returns (res: Result<map<string, DjikstraNode>, SearchError>)
    ensures tablesNeeded == [] <==> res == Err(Message(TooFewTablesMessage))
    ensures tablesNeeded != [] && tablesNeeded[0] !in Index(tables) ==> res == Err(KeyError(tablesNeeded[0]))
    ensures tablesNeeded != [] ==>
      (res.Ok? <==> tablesNeeded[0] in Index(tables) && ReachableClosed(Index(tables), tablesNeeded[0]))
    ensures res.Err? && res.error.KeyError? ==>
      tablesNeeded != [] && res.error.key !in Index(tables)
      && (res.error.key == tablesNeeded[0] || DanglingFrom(Index(tables), tablesNeeded[0], res.error.key))
    ensures tablesNeeded != [] && tablesNeeded[0] in Index(tables) && SchemaClosed(Index(tables)) ==> res.Ok?
    ensures res.Ok? ==> tablesNeeded != [] && res.value.Keys == Index(tables).Keys
    ensures res.Ok? ==> res.value[tablesNeeded[0]] == StartNode(tablesNeeded[0])
    ensures res.Ok? ==> forall k :: k in res.value ==>
      (res.value[k].weight >= 0 <==> Reachable(Index(tables), tablesNeeded[0], k))
    ensures res.Ok? ==> forall k :: k in res.value && k != tablesNeeded[0] && Reachable(Index(tables), tablesNeeded[0], k) ==>
      RecordsKey(Index(tables), res.value[k], k)
  {
    ghost var expanded;
    res, expanded := Search(tables, tablesNeeded, true);
  }

  // ---------------------------------------------------------------------------
  // The replacement test on a two-table schema

  /** orders.customer_id references customers.id. */
  const OrdersToCustomers := ForeignKey("customer_id", "orders", "id", "customers")

  /** The two tables as the loader groups that key: under each table's own name, in the
      orders table's foreign keys and in the customers table's references. */
  function OrdersAndCustomers(): seq<Table>
  {
    [Table("orders", 0, [], [("orders", [OrdersToCustomers])], []),
     Table("customers", 0, [], [], [("customers", [OrdersToCustomers])])]
  }

  /** Each table of the schema is the other's only neighbour. */
  lemma OrdersAndCustomersGraph()
    ensures Index(OrdersAndCustomers()).Keys == {"orders", "customers"}
    ensures Neighbours(Index(OrdersAndCustomers())["orders"]) == {"customers"}
    ensures Neighbours(Index(OrdersAndCustomers())["customers"]) == {"orders"}
    ensures SchemaClosed(Index(OrdersAndCustomers()))
    ensures Reachable(Index(OrdersAndCustomers()), "orders", "customers")
  {
    var tables := OrdersAndCustomers();
    var graph := Index(tables);
    assert tables[..1][..0] == [];
    assert Index(tables[..1]) == map["orders" := tables[0]];
    assert graph == Index(tables[..1])["customers" := tables[1]];
    var fks: FkDict := [("orders", [OrdersToCustomers])];
    var refs: FkDict := [("customers", [OrdersToCustomers])];
    assert fks[..0] == [] && refs[..0] == [];
    assert Flatten(fks) == [OrdersToCustomers];
    assert Flatten(refs) == [OrdersToCustomers];
    assert Neighbours(graph["orders"]) == {"customers"};
    assert Neighbours(graph["customers"]) == {"orders"};
    assert IsPath(graph, ["orders", "customers"]);
  }

  /** The schema has one foreign key, drawn from either side. */
  lemma OrdersAndCustomersKeys()
    ensures forall p, isReference, fk ::
      p in Index(OrdersAndCustomers()) && fk in KeysOf(Index(OrdersAndCustomers())[p], isReference) ==>
        fk == OrdersToCustomers
  {
    var tables := OrdersAndCustomers();
    assert tables[..1][..0] == [];
    assert Index(tables) == map["orders" := tables[0], "customers" := tables[1]];
    var fks: FkDict := [("orders", [OrdersToCustomers])];
    var refs: FkDict := [("customers", [OrdersToCustomers])];
    assert fks[..0] == [] && refs[..0] == [];
    assert Flatten(fks) == [OrdersToCustomers] && Flatten(refs) == [OrdersToCustomers];
  }

  /** On this schema, starting from orders, the search as written expands customers yet
      leaves its entry at the default: the only candidate for it weighs 1, and the test
      keeps an entry unless its weight is strictly greater than the candidate's, which the
      default weight -1 never is. */
  method ReachableTableLeftUnvisited() returns (res: Result<map<string, DjikstraNode>, SearchError>)
    ensures Reachable(Index(OrdersAndCustomers()), "orders", "customers")
    ensures res.Ok? && "customers" in res.value && res.value["customers"] == Unvisited
  {
    OrdersAndCustomersGraph();
    ghost var expanded;
    res, expanded := CreateDjikstra(OrdersAndCustomers(), ["orders"]);
  }

  /** On the same schema the sentinel-aware test records customers. */
  method ReachableTableRecorded() returns (res: Result<map<string, DjikstraNode>, SearchError>)
    ensures res.Ok? && "customers" in res.value && res.value["customers"].weight >= 0
    ensures res.value["customers"].data == Some(OrdersToCustomers)
  {
    OrdersAndCustomersGraph();
    OrdersAndCustomersKeys();
    res := CreateDjikstraCorrected(OrdersAndCustomers(), ["orders"]);
    var graph := Index(OrdersAndCustomers());
    var entry := res.value["customers"];
    assert RecordsKey(graph, entry, "customers");
    ghost var p :| p in graph && entry.data.value in KeysOf(graph[p], entry.isReference);
  }
}
