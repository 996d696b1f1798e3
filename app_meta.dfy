/**
  Application metadata (`AppMeta` in src/worker/app_meta.rs): the functions
  of one deployed application, by name.

  A Rust `HashMap` hands out its entries in an order that the program does not
  control. Wherever the code iterates over one, the model takes that order as
  a parameter `order`: a sequence that lists every name of the map once.
 */
module AppMetas {
  import opened Wrappers
  import opened FnMetas

  /** An application's declaration (`AppMetaYaml`): function name to declaration. */
  datatype AppMetaYaml = AppMetaYaml(fns: map<string, FnMetaYaml>)

  /** `order` lists every key of the map exactly once: one possible iteration order. */
  predicate IsEnumeration(order: seq<string>, keys: set<string>)
  {
    && (forall i, j :: 0 <= i < j < |order| ==> order[i] != order[j])
    && (forall i :: 0 <= i < |order| ==> order[i] in keys)
    && (forall k :: k in keys ==> k in order)
  }

  /** The function declares an `http_app` event. */
  predicate HasHttpTrigger(f: FnMeta)
  {
    HttpApp in f.event
  }

  datatype AppMeta = AppMeta(fns: map<string, FnMeta>)
  {
    /** `get_fn_meta`. */
    function GetFnMeta(name: string): (r: Option<FnMeta>)
      ensures r.Some? <==> name in fns
      ensures r.Some? ==> r.value == fns[name]
    {
      if name in fns then Some(fns[name]) else None
    }

    /**
      `http_trigger_fn`: a function that declares an `http_app` event, the
      first one the map's iteration order comes to; None exactly when no
      function declares one.
     */
    function HttpTriggerFn(order: seq<string>): (r: Option<string>)
      requires IsEnumeration(order, fns.Keys)
      ensures r.Some? ==> r.value in fns && HasHttpTrigger(fns[r.value])
      ensures r.None? <==> forall n :: n in fns ==> !HasHttpTrigger(fns[n])
    {
      FirstHttpFn(fns, order)
    }
  }

  /** The `find_map` of `http_trigger_fn` over the names in `order`. */
  function FirstHttpFn(fns: map<string, FnMeta>, order: seq<string>): (r: Option<string>)
    requires forall i :: 0 <= i < |order| ==> order[i] in fns
    ensures r.None? <==> forall k :: 0 <= k < |order| ==> !HasHttpTrigger(fns[order[k]])
    ensures r.Some? ==> exists k :: (0 <= k < |order| && order[k] == r.value
      && HasHttpTrigger(fns[order[k]]) && forall j :: 0 <= j < k ==> !HasHttpTrigger(fns[order[j]]))
  {
    if order == [] then None
    else if HasHttpTrigger(fns[order[0]]) then Some(order[0])
    else
      var r := FirstHttpFn(fns, order[1..]);
      assert forall k :: 1 <= k < |order| ==> order[k] == order[1..][k - 1];
      r
  }

  /**
    When exactly one function declares an `http_app` event, `http_trigger_fn`
    names it whatever the iteration order; with two or more, the answer
    depends on the order (see `HttpTriggerFnDependsOnOrder`).
   */
  lemma HttpTriggerFnUnique(app: AppMeta, order: seq<string>, name: string)
    requires IsEnumeration(order, app.fns.Keys)
    requires name in app.fns && HasHttpTrigger(app.fns[name])
    requires forall n :: n in app.fns && HasHttpTrigger(app.fns[n]) ==> n == name
    ensures app.HttpTriggerFn(order) == Some(name)
  {
  }

  /** Two functions that both declare `http_app`: the two iteration orders give different answers. */
  lemma HttpTriggerFnDependsOnOrder(f: FnMeta)
    requires HasHttpTrigger(f)
    ensures AppMeta(map["a" := f, "b" := f]).HttpTriggerFn(["a", "b"]) == Some("a")
    ensures AppMeta(map["a" := f, "b" := f]).HttpTriggerFn(["b", "a"]) == Some("b")
  {
    var app := AppMeta(map["a" := f, "b" := f]);
    assert IsEnumeration(["a", "b"], app.fns.Keys);
    assert IsEnumeration(["b", "a"], app.fns.Keys);
  }

  /** The conversion of `From<AppMetaYaml> for AppMeta`, over the names in `order`, into `acc`. */
  function ConvertFns(fns: map<string, FnMetaYaml>, order: seq<string>, acc: map<string, FnMeta>)
    : Result<map<string, FnMeta>, string>
    requires forall i :: 0 <= i < |order| ==> order[i] in fns
  {
    if order == [] then Success(acc)
    else match FnMetaSpec(fns[order[0]])
      case Failure(op) => Failure(op)
      case Success(f) => ConvertFns(fns, order[1..], acc[order[0] := f])
  }

  /** What `From<AppMetaYaml> for AppMeta` produces, or the operation name it panics on. */
  function AppMetaSpec(yaml: AppMetaYaml, order: seq<string>): Result<AppMeta, string>
    requires IsEnumeration(order, yaml.fns.Keys)
  {
    match ConvertFns(yaml.fns, order, map[])
    case Failure(op) => Failure(op)
    case Success(fns) => Success(AppMeta(fns))
  }

  /** `From<AppMetaYaml> for AppMeta`: converts every function of the declaration. */
  method AppMetaFromYaml(yaml: AppMetaYaml, order: seq<string>) returns (r: Result<AppMeta, string>)
    requires IsEnumeration(order, yaml.fns.Keys)
    ensures r == AppMetaSpec(yaml, order)
  {
    var fns: map<string, FnMeta> := map[];
    for i := 0 to |order|
      invariant ConvertFns(yaml.fns, order[i..], fns) == ConvertFns(yaml.fns, order, map[])
    {
      assert order[i..][0] == order[i] && order[i..][1..] == order[i + 1..];
      var f := FnMetaFromYaml(yaml.fns[order[i]]);
      if f.Failure? {
        return Failure(f.error);
      }
      fns := fns[order[i] := f.value];
    }
    assert order[|order|..] == [];
    r := Success(AppMeta(fns));
  }

  lemma {:induction false} ConvertFnsProperties(fns: map<string, FnMetaYaml>, order: seq<string>, acc: map<string, FnMeta>)
    requires forall i :: 0 <= i < |order| ==> order[i] in fns
    ensures ConvertFns(fns, order, acc).Success? <==>
      forall i :: 0 <= i < |order| ==> FnMetaSpec(fns[order[i]]).Success?
    ensures ConvertFns(fns, order, acc).Success? ==>
      var m := ConvertFns(fns, order, acc).value;
      && (forall n :: n in m <==> n in acc || n in order)
      && (forall n :: n in order ==> m[n] == FnMetaSpec(fns[n]).value)
      && (forall n :: n in acc && n !in order ==> m[n] == acc[n])
  {
    if order != [] {
      assert forall i :: 1 <= i < |order| ==> order[i] == order[1..][i - 1];
      if FnMetaSpec(fns[order[0]]).Success? {
        ConvertFnsProperties(fns, order[1..], acc[order[0] := FnMetaSpec(fns[order[0]]).value]);
        assert forall n :: n in order <==> n == order[0] || n in order[1..];
      }
    }
  }

  /**
    Converting an application fails exactly when one of its functions has an
    unknown operation name; otherwise it has the same function names, each
    mapped to the conversion of its own declaration.
   */
  lemma AppMetaFromYamlProperties(yaml: AppMetaYaml, order: seq<string>)
    requires IsEnumeration(order, yaml.fns.Keys)
    ensures AppMetaSpec(yaml, order).Success? <==>
      forall n :: n in yaml.fns ==> FnMetaSpec(yaml.fns[n]).Success?
    ensures AppMetaSpec(yaml, order).Success? ==>
      var app := AppMetaSpec(yaml, order).value;
      && app.fns.Keys == yaml.fns.Keys
      && forall n :: n in yaml.fns ==> app.fns[n] == FnMetaSpec(yaml.fns[n]).value
  {
    ConvertFnsProperties(yaml.fns, order, map[]);
    if forall i :: 0 <= i < |order| ==> FnMetaSpec(yaml.fns[order[i]]).Success? {
      forall n | n in yaml.fns ensures FnMetaSpec(yaml.fns[n]).Success? {
        var i :| 0 <= i < |order| && order[i] == n;
      }
    }
  }

  /** A converted application declares the same function names as its declaration. */
  lemma AppMetaSpecKeys(yaml: AppMetaYaml, order: seq<string>)
    requires IsEnumeration(order, yaml.fns.Keys)
    ensures AppMetaSpec(yaml, order).Success? ==> AppMetaSpec(yaml, order).value.fns.Keys == yaml.fns.Keys
  {
    AppMetaFromYamlProperties(yaml, order);
  }
}
