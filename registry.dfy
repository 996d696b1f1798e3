/**
  The registry of deployed applications (`AppMetaManager` in
  src/worker/app_meta.rs): the application table, and the reverse index from a
  pattern's template string to the (application, function) pairs that a `set`
  on a key of that pattern must trigger.

  Loading reads `apps/<name>/app.yaml` for every directory under the base
  directory. The model takes the result of that enumeration and parsing as a
  sequence of `AppEntry` values, in directory order.
 */
module Registry {
  import opened Wrappers
  import opened KeyPatterns
  import opened FnMetas
  import opened AppMetas

  /** An (application name, function name) pair. */
  type AppFn = (string, string)

  /** The reverse index: template string to the pairs to trigger, in discovery order. */
  type PatternIndex = map<string, seq<AppFn>>

  /**
    One directory under `apps/`: its name (the application's name), its parsed
    declaration, and the order in which the function map hands out its names.
   */
  datatype AppEntry = AppEntry(name: string, yaml: AppMetaYaml, order: seq<string>)

  /** Why a load fails; `load_all_app_meta` panics in both cases. */
  datatype LoadError =
    | InvalidOperation(op: string)
    | KvIndexOutOfRange(app: string, fnName: string, index: nat)

  /** Both tables of the registry, as values. */
  datatype Tables = Tables(apps: map<string, AppMeta>, index: PatternIndex)

  predicate Enumerated(entries: seq<AppEntry>)
  {
    forall k :: 0 <= k < |entries| ==> IsEnumeration(entries[k].order, entries[k].yaml.fns.Keys)
  }

  /** The pairs recorded for a template, none when it has no entry. */
  function TriggersOf(index: PatternIndex, template: string): seq<AppFn>
  {
    if template in index then index[template] else []
  }

  /** `entry(template).or_insert_with(Vec::new).push(x)`. */
  function Push(index: PatternIndex, template: string, x: AppFn): PatternIndex
  {
    index[template := TriggersOf(index, template) + [x]]
  }

  /** The index after the events `events` of function `fnName` of application `app`. */
  function IndexEvents(index: PatternIndex, app: string, fnName: string, f: FnMeta, events: seq<FnEvent>)
    : Result<PatternIndex, LoadError>
    decreases |events|
  {
    if events == [] then Success(index)
    else match events[0]
      case HttpApp => IndexEvents(index, app, fnName, f, events[1..])
      case KvSet(i) =>
        match f.TryGetKvMeta(i)
        case None => Failure(KvIndexOutOfRange(app, fnName, i))
        case Some(m) => IndexEvents(Push(index, m.pattern.template, (app, fnName)), app, fnName, f, events[1..])
  }

  /** Continues with the functions in `order` once the previous step succeeded. */
  function ThenFns(res: Result<PatternIndex, LoadError>, app: string, meta: AppMeta, order: seq<string>)
    : Result<PatternIndex, LoadError>
    requires forall i :: 0 <= i < |order| ==> order[i] in meta.fns
    decreases |order| + 1, 0
  {
    match res
    case Failure(e) => Failure(e)
    case Success(index) => IndexFns(index, app, meta, order)
  }

  /** The index after every event of the functions in `order` of one application. */
  function IndexFns(index: PatternIndex, app: string, meta: AppMeta, order: seq<string>)
    : Result<PatternIndex, LoadError>
    requires forall i :: 0 <= i < |order| ==> order[i] in meta.fns
    decreases |order|, 1
  {
    if order == [] then Success(index)
    else
      var f := meta.fns[order[0]];
      ThenFns(IndexEvents(index, app, order[0], f, f.event), app, meta, order[1..])
  }

  /** Continues with the remaining applications once the current one is indexed. */
  function ThenApps(res: Result<PatternIndex, LoadError>, apps: map<string, AppMeta>, name: string, meta: AppMeta,
                    rest: seq<AppEntry>): Result<Tables, LoadError>
    requires Enumerated(rest)
    decreases |rest| + 1, 0
  {
    match res
    case Failure(e) => Failure(e)
    case Success(index) => LoadApps(Tables(apps[name := meta], index), rest)
  }

  /**
    The whole load: for each application in order, convert its declaration,
    append its triggers to the index, then record it in the table; the first
    failure ends the load.
   */
  function LoadApps(t: Tables, entries: seq<AppEntry>): Result<Tables, LoadError>
    requires Enumerated(entries)
    decreases |entries|, 1
  {
    if entries == [] then Success(t)
    else
      var e := entries[0];
      match AppMetaSpec(e.yaml, e.order)
      case Failure(op) => Failure(InvalidOperation(op))
      case Success(meta) =>
        AppMetaSpecKeys(e.yaml, e.order);
        ThenApps(IndexFns(t.index, e.name, meta, e.order), t.apps, e.name, meta, entries[1..])
  }

  /**
    A run of the loading loops ends as its specification says: with the same
    error when the specification fails, and otherwise successfully in the
    specified state.
   */
  predicate Reflects<T(==)>(r: Result<(), LoadError>, state: T, spec: Result<T, LoadError>)
  {
    match spec
    case Success(s) => r.Success? && state == s
    case Failure(e) => r == Failure(e)
  }

  class AppMetaManager {
    var appMetas: map<string, AppMeta>
    var pattern2AppFn: PatternIndex

    /** `AppMetaManager::new`: both tables empty. */
    constructor ()
      ensures appMetas == map[] && pattern2AppFn == map[]
    {
      appMetas := map[];
      pattern2AppFn := map[];
    }

    /** `get_app_meta`. */
    function GetAppMeta(app: string): (r: Option<AppMeta>)
      reads this
      ensures r.Some? <==> app in appMetas
      ensures r.Some? ==> r.value == appMetas[app]
    {
      if app in appMetas then Some(appMetas[app]) else None
    }

    /** `get_pattern_triggers`: a lookup by the exact template string, not a pattern match. */
    function GetPatternTriggers(template: string): (r: Option<seq<AppFn>>)
      reads this
      ensures r.Some? <==> template in pattern2AppFn
      ensures r.Some? ==> r.value == pattern2AppFn[template]
    {
      if template in pattern2AppFn then Some(pattern2AppFn[template]) else None
    }

    /**
      The innermost loop of `load_all_app_meta`: for each event of one
      function, a `kv_set` pushes (app, fn) onto the list of its slot's
      template; a missing slot is the `unwrap` that panics.
     */
    method PushFnTriggers(app: string, fnName: string, f: FnMeta) returns (r: Result<(), LoadError>)
      modifies this
      ensures appMetas == old(appMetas)
      ensures Reflects(r, pattern2AppFn, IndexEvents(old(pattern2AppFn), app, fnName, f, f.event))
    {
      ghost var goal := IndexEvents(pattern2AppFn, app, fnName, f, f.event);
      assert f.event[0..] == f.event;
      for t := 0 to |f.event|
        invariant appMetas == old(appMetas)
        invariant IndexEvents(pattern2AppFn, app, fnName, f, f.event[t..]) == goal
      {
        assert f.event[t..][0] == f.event[t] && f.event[t..][1..] == f.event[t + 1..];
        match f.event[t]
        case HttpApp =>
        case KvSet(i) =>
          var kvmeta := f.TryGetKvMeta(i);
          if kvmeta.None? {
            return Failure(KvIndexOutOfRange(app, fnName, i));
          }
          var template := kvmeta.value.pattern.template;
          var list := if template in pattern2AppFn then pattern2AppFn[template] else [];
          pattern2AppFn := pattern2AppFn[template := list + [(app, fnName)]];
      }
      assert f.event[|f.event|..] == [];
      return Success(());
    }

    /** The loop over the functions of one application, in the order the map hands them out. */
    method PushAppTriggers(app: string, meta: AppMeta, order: seq<string>) returns (r: Result<(), LoadError>)
      requires forall i :: 0 <= i < |order| ==> order[i] in meta.fns
      modifies this
      ensures appMetas == old(appMetas)
      ensures Reflects(r, pattern2AppFn, IndexFns(old(pattern2AppFn), app, meta, order))
    {
      ghost var goal := IndexFns(pattern2AppFn, app, meta, order);
      assert order[0..] == order;
      for j := 0 to |order|
        invariant appMetas == old(appMetas)
        invariant IndexFns(pattern2AppFn, app, meta, order[j..]) == goal
      {
        assert order[j..][0] == order[j] && order[j..][1..] == order[j + 1..];
        var pushed := PushFnTriggers(app, order[j], meta.fns[order[j]]);
        if pushed.Failure? {
          return pushed;
        }
      }
      assert order[|order|..] == [];
      return Success(());
    }

    /**
      `load_all_app_meta`: for each application, converts its declaration,
      pushes one (application, function) pair per `kv_set` event onto the
      index entry of that event's pattern, and records the application. On
      failure the code panics part-way, so nothing is promised about the
      tables then.
     */
    method LoadAllAppMeta(entries: seq<AppEntry>) returns (r: Result<(), LoadError>)
      requires Enumerated(entries)
      modifies this
      ensures Reflects(r, Tables(appMetas, pattern2AppFn), LoadApps(old(Tables(appMetas, pattern2AppFn)), entries))
    {
      ghost var goal := LoadApps(Tables(appMetas, pattern2AppFn), entries);
      assert entries[0..] == entries;
      for k := 0 to |entries|
        invariant LoadApps(Tables(appMetas, pattern2AppFn), entries[k..]) == goal
      {
        var e := entries[k];
        assert entries[k..][0] == e && entries[k..][1..] == entries[k + 1..];
        var converted := AppMetaFromYaml(e.yaml, e.order);
        if converted.Failure? {
          return Failure(InvalidOperation(converted.error));
        }
        var meta := converted.value;
        AppMetaSpecKeys(e.yaml, e.order);
        var pushed := PushAppTriggers(e.name, meta, e.order);
        if pushed.Failure? {
          return pushed;
        }
        appMetas := appMetas[e.name := meta];
      }
      assert entries[|entries|..] == [];
      return Success(());
    }
  }

  /** `n` copies of a pair. */
  function Repeat(x: AppFn, n: nat): (s: seq<AppFn>)
  {
    seq(n, _ => x)
  }

  /** The number of `KvSet` events in `events` whose slot holds the template `template`. */
  function TriggerCount(f: FnMeta, events: seq<FnEvent>, template: string): nat
  {
    if events == [] then 0
    else
      var here := events[0].KvSet? && f.TryGetKvMeta(events[0].index).Some?
        && f.TryGetKvMeta(events[0].index).value.pattern.template == template;
      (if here then 1 else 0) + TriggerCount(f, events[1..], template)
  }

  /** The pairs one application contributes to a template, function by function in `order`. */
  function FnsTriggers(app: string, meta: AppMeta, order: seq<string>, template: string): seq<AppFn>
    requires forall i :: 0 <= i < |order| ==> order[i] in meta.fns
  {
    if order == [] then []
    else
      var f := meta.fns[order[0]];
      Repeat((app, order[0]), TriggerCount(f, f.event, template)) + FnsTriggers(app, meta, order[1..], template)
  }

  /** The pairs all applications contribute to a template, in discovery order. */
  function LoadTriggers(entries: seq<AppEntry>, template: string): seq<AppFn>
    requires Enumerated(entries)
  {
    if entries == [] then []
    else
      var e := entries[0];
      AppMetaSpecKeys(e.yaml, e.order);
      var here :=
        if AppMetaSpec(e.yaml, e.order).Failure? then []
        else FnsTriggers(e.name, AppMetaSpec(e.yaml, e.order).value, e.order, template);
      here + LoadTriggers(entries[1..], template)
  }

  /** An application that loads: its declaration converts and every `kv_set` names an existing slot. */
  predicate Loadable(e: AppEntry)
    requires IsEnumeration(e.order, e.yaml.fns.Keys)
  {
    && AppMetaSpec(e.yaml, e.order).Success?
    && forall n :: n in AppMetaSpec(e.yaml, e.order).value.fns ==>
         AppMetaSpec(e.yaml, e.order).value.fns[n].KvSetIndicesValid()
  }

  /** A push appends to its own template's list and leaves every other list alone. */
  lemma PushAppends(index: PatternIndex, key: string, x: AppFn, template: string)
    ensures TriggersOf(Push(index, key, x), template) == TriggersOf(index, template) + (if key == template then [x] else [])
    ensures template in Push(index, key, x) <==> template in index || key == template
  {
  }

  /**
    Indexing one function's events succeeds exactly when every `kv_set` slot
    exists, and appends one pair per event on the template to its list.
   */
  lemma {:induction false} IndexEventsAppends(index: PatternIndex, app: string, fnName: string, f: FnMeta,
                                              events: seq<FnEvent>, template: string)
    decreases |events|
    ensures IndexEvents(index, app, fnName, f, events).Success? <==>
      forall k :: 0 <= k < |events| && events[k].KvSet? ==> f.TryGetKvMeta(events[k].index).Some?
    ensures IndexEvents(index, app, fnName, f, events).Success? ==>
      var result := IndexEvents(index, app, fnName, f, events).value;
      && TriggersOf(result, template) == TriggersOf(index, template) + Repeat((app, fnName), TriggerCount(f, events, template))
      && (template in result <==> template in index || TriggerCount(f, events, template) > 0)
  {
    if events != [] {
      assert forall k :: 1 <= k < |events| ==> events[k] == events[1..][k - 1];
      match events[0]
      case HttpApp =>
        IndexEventsAppends(index, app, fnName, f, events[1..], template);
      case KvSet(i) =>
        if f.TryGetKvMeta(i).Some? {
          var m := f.TryGetKvMeta(i).value;
          var next := Push(index, m.pattern.template, (app, fnName));
          IndexEventsAppends(next, app, fnName, f, events[1..], template);
          var c := TriggerCount(f, events[1..], template);
          var here: seq<AppFn> := if m.pattern.template == template then [(app, fnName)] else [];
          PushAppends(index, m.pattern.template, (app, fnName), template);
          assert here + Repeat((app, fnName), c) == Repeat((app, fnName), |here| + c);
          if IndexEvents(next, app, fnName, f, events[1..]).Success? {
            var result := IndexEvents(next, app, fnName, f, events[1..]).value;
            AppendsCompose(index, next, result, template, here, Repeat((app, fnName), c));
          }
        }
    }
  }

  /** Indexing one application appends the pairs of each function in turn. */
  lemma {:induction false} IndexFnsAppends(index: PatternIndex, app: string, meta: AppMeta, order: seq<string>,
                                           template: string)
    requires forall i :: 0 <= i < |order| ==> order[i] in meta.fns
    decreases |order|
    ensures IndexFns(index, app, meta, order).Success? <==>
      forall i :: 0 <= i < |order| ==> meta.fns[order[i]].KvSetIndicesValid()
    ensures IndexFns(index, app, meta, order).Success? ==>
      var result := IndexFns(index, app, meta, order).value;
      && TriggersOf(result, template) == TriggersOf(index, template) + FnsTriggers(app, meta, order, template)
      && (template in result <==> template in index || FnsTriggers(app, meta, order, template) != [])
  {
    if order != [] {
      assert forall i :: 1 <= i < |order| ==> order[i] == order[1..][i - 1];
      var f := meta.fns[order[0]];
      IndexEventsAppends(index, app, order[0], f, f.event, template);
      if IndexEvents(index, app, order[0], f, f.event).Success? {
        var next := IndexEvents(index, app, order[0], f, f.event).value;
        IndexFnsAppends(next, app, meta, order[1..], template);
        if IndexFns(next, app, meta, order[1..]).Success? {
          var result := IndexFns(next, app, meta, order[1..]).value;
          AppendsCompose(index, next, result, template, Repeat((app, order[0]), TriggerCount(f, f.event, template)),
            FnsTriggers(app, meta, order[1..], template));
        }
      }
    }
  }

  /**
    One application of a successful load: the first entry converts and
    indexes, and the load of all entries is the load of the rest from the
    tables that entry leaves behind.
   */
  lemma LoadAppsStep(t: Tables, entries: seq<AppEntry>) returns (next: Tables)
    requires Enumerated(entries) && entries != []
    requires LoadApps(t, entries).Success?
    ensures Enumerated(entries[1..])
    ensures AppMetaSpec(entries[0].yaml, entries[0].order).Success?
    ensures
      var e := entries[0];
      var meta := AppMetaSpec(e.yaml, e.order).value;
      && (forall i :: 0 <= i < |e.order| ==> e.order[i] in meta.fns)
      && IndexFns(t.index, e.name, meta, e.order).Success?
      && next == Tables(t.apps[e.name := meta], IndexFns(t.index, e.name, meta, e.order).value)
      && LoadApps(t, entries) == LoadApps(next, entries[1..])
  {
    var e := entries[0];
    assert forall k :: 1 <= k < |entries| ==> entries[k] == entries[1..][k - 1];
    AppMetaSpecKeys(e.yaml, e.order);
    var meta := AppMetaSpec(e.yaml, e.order).value;
    next := Tables(t.apps[e.name := meta], IndexFns(t.index, e.name, meta, e.order).value);
  }

  lemma LoadTriggersStep(entries: seq<AppEntry>, template: string)
    requires Enumerated(entries) && entries != []
    requires AppMetaSpec(entries[0].yaml, entries[0].order).Success?
    ensures Enumerated(entries[1..])
    ensures
      var e := entries[0];
      var meta := AppMetaSpec(e.yaml, e.order).value;
      && (forall i :: 0 <= i < |e.order| ==> e.order[i] in meta.fns)
      && LoadTriggers(entries, template) == FnsTriggers(e.name, meta, e.order, template) + LoadTriggers(entries[1..], template)
  {
    assert forall k :: 1 <= k < |entries| ==> entries[k] == entries[1..][k - 1];
    AppMetaSpecKeys(entries[0].yaml, entries[0].order);
  }

  /** A load succeeds exactly when every application in it loads. */
  lemma {:induction false} LoadAppsSucceeds(t: Tables, entries: seq<AppEntry>)
    requires Enumerated(entries)
    decreases |entries|
    ensures LoadApps(t, entries).Success? <==> forall k :: 0 <= k < |entries| ==> Loadable(entries[k])
  {
    if entries != [] {
      var e := entries[0];
      AllLoadableSplit(entries);
      if Loadable(e) {
        AppMetaSpecKeys(e.yaml, e.order);
        var meta := AppMetaSpec(e.yaml, e.order).value;
        IndexFnsAppends(t.index, e.name, meta, e.order, []);
        EnumerationCoversFns(meta, e.order);
        var next := Tables(t.apps[e.name := meta], IndexFns(t.index, e.name, meta, e.order).value);
        assert LoadApps(t, entries) == LoadApps(next, entries[1..]);
        LoadAppsSucceeds(next, entries[1..]);
      } else {
        AppMetaSpecKeys(e.yaml, e.order);
        if AppMetaSpec(e.yaml, e.order).Success? {
          var meta := AppMetaSpec(e.yaml, e.order).value;
          IndexFnsAppends(t.index, e.name, meta, e.order, []);
          EnumerationCoversFns(meta, e.order);
        }
      }
    }
  }

  /**
    What a successful load does to the index: each template's list is its old
    list followed by one pair per `kv_set` event on that template, application
    by application, function by function, event by event. Nothing is removed
    or reordered, duplicates stay, and `http_app` events add nothing.
   */
  lemma {:induction false} LoadAppsIndex(t: Tables, entries: seq<AppEntry>, template: string)
    requires Enumerated(entries) && LoadApps(t, entries).Success?
    decreases |entries|
    ensures
      var result := LoadApps(t, entries).value;
      && TriggersOf(result.index, template) == TriggersOf(t.index, template) + LoadTriggers(entries, template)
      && (template in result.index <==> template in t.index || LoadTriggers(entries, template) != [])
  {
    if entries != [] {
      var e := entries[0];
      var next := LoadAppsStep(t, entries);
      var meta := AppMetaSpec(e.yaml, e.order).value;
      var added := FnsTriggers(e.name, meta, e.order, template);
      assert TriggersOf(next.index, template) == TriggersOf(t.index, template) + added
        && (template in next.index <==> template in t.index || added != []) by {
        IndexFnsAppends(t.index, e.name, meta, e.order, template);
      }
      assert LoadTriggers(entries, template) == added + LoadTriggers(entries[1..], template) by {
        LoadTriggersStep(entries, template);
      }
      var rest := LoadTriggers(entries[1..], template);
      var result := LoadApps(t, entries).value;
      assert result == LoadApps(next, entries[1..]).value;
      LoadAppsIndex(next, entries[1..], template);
      AppendsCompose(t.index, next.index, result.index, template, added, rest);
    } else {
      assert TriggersOf(t.index, template) + [] == TriggersOf(t.index, template);
    }
  }

  /** Appending `a` and then `b` to a template's list appends `a + b`. */
  lemma AppendsCompose(i0: PatternIndex, i1: PatternIndex, i2: PatternIndex, template: string, a: seq<AppFn>, b: seq<AppFn>)
    requires TriggersOf(i1, template) == TriggersOf(i0, template) + a && (template in i1 <==> template in i0 || a != [])
    requires TriggersOf(i2, template) == TriggersOf(i1, template) + b && (template in i2 <==> template in i1 || b != [])
    ensures TriggersOf(i2, template) == TriggersOf(i0, template) + (a + b)
    ensures template in i2 <==> template in i0 || a + b != []
  {
    assert |a + b| == |a| + |b|;
  }

  lemma AllLoadableSplit(entries: seq<AppEntry>)
    requires Enumerated(entries) && entries != []
    ensures Enumerated(entries[1..])
    ensures (forall k :: 0 <= k < |entries| ==> Loadable(entries[k])) <==>
      Loadable(entries[0]) && forall k :: 0 <= k < |entries[1..]| ==> Loadable(entries[1..][k])
  {
    assert forall k :: 1 <= k < |entries| ==> entries[k] == entries[1..][k - 1];
  }

  /** A condition on every function named in an enumeration is a condition on every function. */
  lemma EnumerationCoversFns(meta: AppMeta, order: seq<string>)
    requires IsEnumeration(order, meta.fns.Keys)
    ensures (forall i :: 0 <= i < |order| ==> meta.fns[order[i]].KvSetIndicesValid()) <==>
      forall n :: n in meta.fns ==> meta.fns[n].KvSetIndicesValid()
  {
  }

  /**
    What a load does to the application table: every loaded name is present,
    mapped to the conversion of the last declaration loaded under that name;
    names not loaded keep their entries.
   */
  lemma {:induction false} LoadAppsTable(t: Tables, entries: seq<AppEntry>, name: string)
    requires Enumerated(entries) && LoadApps(t, entries).Success?
    decreases |entries|
    ensures name in LoadApps(t, entries).value.apps <==>
      name in t.apps || exists k :: 0 <= k < |entries| && entries[k].name == name
    ensures forall k ::
      (&& 0 <= k < |entries| && entries[k].name == name
       && (forall j :: k < j < |entries| ==> entries[j].name != name)) ==>
      AppMetaSpec(entries[k].yaml, entries[k].order).Success?
      && LoadApps(t, entries).value.apps[name] == AppMetaSpec(entries[k].yaml, entries[k].order).value
    ensures (forall k :: 0 <= k < |entries| ==> entries[k].name != name) && name in t.apps ==>
      LoadApps(t, entries).value.apps[name] == t.apps[name]
  {
    if entries != [] {
      var e := entries[0];
      assert forall k :: 1 <= k < |entries| ==> entries[k] == entries[1..][k - 1];
      AppMetaSpecKeys(e.yaml, e.order);
      var meta := AppMetaSpec(e.yaml, e.order).value;
      var next := Tables(t.apps[e.name := meta], IndexFns(t.index, e.name, meta, e.order).value);
      LoadAppsTable(next, entries[1..], name);
    }
  }

  predicate NamesDistinct(entries: seq<AppEntry>)
  {
    forall i, j :: 0 <= i < j < |entries| ==> entries[i].name != entries[j].name
  }

  lemma {:induction false} InRepeat(x: AppFn, n: nat, y: AppFn)
    ensures y in Repeat(x, n) <==> y == x && n > 0
  {
    if n > 0 {
      assert Repeat(x, n)[0] == x;
    }
  }

  lemma {:induction false} InFnsTriggers(app: string, meta: AppMeta, order: seq<string>, template: string, x: AppFn)
    requires forall i :: 0 <= i < |order| ==> order[i] in meta.fns
    ensures x in FnsTriggers(app, meta, order, template) <==>
      x.0 == app && x.1 in order && TriggerCount(meta.fns[x.1], meta.fns[x.1].event, template) > 0
  {
    if order != [] {
      assert forall i :: 1 <= i < |order| ==> order[i] == order[1..][i - 1];
      var f := meta.fns[order[0]];
      InRepeat((app, order[0]), TriggerCount(f, f.event, template), x);
      InFnsTriggers(app, meta, order[1..], template, x);
      assert x.1 in order <==> x.1 == order[0] || x.1 in order[1..];
    }
  }

  lemma {:induction false} InLoadTriggers(entries: seq<AppEntry>, template: string, x: AppFn)
    requires Enumerated(entries)
    ensures x in LoadTriggers(entries, template) <==>
      exists k :: 0 <= k < |entries| && entries[k].name == x.0 && AppMetaSpec(entries[k].yaml, entries[k].order).Success?
        && x.1 in AppMetaSpec(entries[k].yaml, entries[k].order).value.fns
        && var f := AppMetaSpec(entries[k].yaml, entries[k].order).value.fns[x.1];
           TriggerCount(f, f.event, template) > 0
  {
    if entries != [] {
      var e := entries[0];
      assert forall k :: 1 <= k < |entries| ==> entries[k] == entries[1..][k - 1];
      AppMetaSpecKeys(e.yaml, e.order);
      InLoadTriggers(entries[1..], template, x);
      if AppMetaSpec(e.yaml, e.order).Success? {
        InFnsTriggers(e.name, AppMetaSpec(e.yaml, e.order).value, e.order, template, x);
      }
    }
  }

  /** Some event from `k` on triggers on the template exactly when the count from `k` on is positive. */
  lemma {:induction false} TriggerCountPositive(f: FnMeta, k: nat, template: string)
    requires k <= |f.event|
    ensures TriggerCount(f, f.event[k..], template) > 0 <==>
      exists j :: k <= j < |f.event| && f.TriggersOn(j, KeyPattern(template))
    decreases |f.event| - k
  {
    if k < |f.event| {
      assert f.event[k..][0] == f.event[k] && f.event[k..][1..] == f.event[k + 1..];
      TriggerCountPositive(f, k + 1, template);
      assert f.TriggersOn(k, KeyPattern(template)) <==>
        f.event[k].KvSet? && f.TryGetKvMeta(f.event[k].index).Some?
        && f.TryGetKvMeta(f.event[k].index).value.pattern.template == template;
    }
  }

  /**
    After loading into an empty registry applications with distinct names,
    the index lists the pair (app, fn) under a template exactly when app is
    loaded, has function fn, and fn's `find_will_trigger_kv_event` confirms a
    `set` trigger on that very template: the index and the confirmation agree.
   */
  lemma LoadedIndexIsConfirmed(entries: seq<AppEntry>, template: string, app: string, fnName: string)
    requires Enumerated(entries) && NamesDistinct(entries)
    requires LoadApps(Tables(map[], map[]), entries).Success?
    ensures var r := LoadApps(Tables(map[], map[]), entries).value;
      app in r.apps && fnName in r.apps[app].fns ==> r.apps[app].fns[fnName].KvSetIndicesValid()
    ensures var r := LoadApps(Tables(map[], map[]), entries).value;
      (app, fnName) in TriggersOf(r.index, template) <==>
        app in r.apps && fnName in r.apps[app].fns
        && r.apps[app].fns[fnName].FindWillTriggerKvEvent(KeyPattern(template), Set).Some?
  {
    var r := LoadApps(Tables(map[], map[]), entries).value;
    LoadAppsSucceeds(Tables(map[], map[]), entries);
    LoadAppsIndex(Tables(map[], map[]), entries, template);
    LoadAppsTable(Tables(map[], map[]), entries, app);
    InLoadTriggers(entries, template, (app, fnName));
    if app in r.apps {
      var k :| 0 <= k < |entries| && entries[k].name == app;
      assert forall j :: k < j < |entries| ==> entries[j].name != app;
      assert Loadable(entries[k]);
      var meta := AppMetaSpec(entries[k].yaml, entries[k].order).value;
      assert r.apps[app] == meta;
      if fnName in meta.fns {
        var f := meta.fns[fnName];
        assert f.KvSetIndicesValid();
        TriggerCountPositive(f, 0, template);
        assert f.event[0..] == f.event;
        FindWillTriggerKvEventIff(f, KeyPattern(template), Set);
        if (app, fnName) in TriggersOf(r.index, template) {
          var k' :| 0 <= k' < |entries| && entries[k'].name == app && AppMetaSpec(entries[k'].yaml, entries[k'].order).Success?
            && fnName in AppMetaSpec(entries[k'].yaml, entries[k'].order).value.fns
            && var g := AppMetaSpec(entries[k'].yaml, entries[k'].order).value.fns[fnName];
               TriggerCount(g, g.event, template) > 0;
          assert k' == k;
        }
      }
    }
  }
}
