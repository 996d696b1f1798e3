/**
  Per-function metadata (`FnMeta` in src/worker/app_meta.rs): the events that
  trigger a function, its argument bindings, and the ordered list of key
  permissions (`KvMeta`) that say which operations it may perform on which keys.
 */
module FnMetas {
  import opened Wrappers
  import opened Utf8
  import opened KeyPatterns

  /** The key-value operations that a permission can allow (`KvOps`). */
  datatype KvOp = Get | Set | Delete

  /** One key permission: a pattern and the operations allowed on the keys it matches. */
  datatype KvMeta = KvMeta(allowSet: bool, allowGet: bool, allowDelete: bool, pattern: KeyPattern)
  {
    predicate Allows(op: KvOp)
    {
      match op
      case Get => allowGet
      case Set => allowSet
      case Delete => allowDelete
    }
  }

  /** Whether a permission both matches the key and allows the operation. */
  predicate Grants(m: KvMeta, key: string, op: KvOp)
  {
    m.pattern.MatchKey(key) && m.Allows(op)
  }

  /** An event as declared (`FnEventYaml`): `{http_app: ~}` or `{kv_set: i}`. */
  datatype FnEventYaml = HttpAppYaml | KvSetYaml(kvSet: nat)

  /** What triggers a function: an HTTP call, or a `set` on the key of permission slot `index`. */
  datatype FnEvent = HttpApp | KvSet(index: nat)

  /** An argument as declared (`FnArgYaml`): `{kv_key: i}` or `{http_text: ~}`. */
  datatype FnArgYaml = KvKeyYaml(kvKey: nat) | HttpTextYaml

  /** What a function receives: the key of permission slot `index`, or the HTTP body. */
  datatype FnArg = KvKey(index: nat) | HttpText

  function EventFromYaml(yaml: FnEventYaml): (e: FnEvent)
    ensures e.HttpApp? <==> yaml.HttpAppYaml?
    ensures e.KvSet? ==> e.index == yaml.kvSet
  {
    match yaml
    case HttpAppYaml => HttpApp
    case KvSetYaml(i) => KvSet(i)
  }

  function ArgFromYaml(yaml: FnArgYaml): (a: FnArg)
    ensures a.HttpText? <==> yaml.HttpTextYaml?
    ensures a.KvKey? ==> a.index == yaml.kvKey
  {
    match yaml
    case KvKeyYaml(i) => KvKey(i)
    case HttpTextYaml => HttpText
  }

  /** Strict lexicographic order of strings, the order in which a `BTreeMap<String, _>` iterates. */
  predicate StringLess(a: string, b: string)
  {
    if a == [] then b != []
    else b != [] && (a[0] < b[0] || (a[0] == b[0] && StringLess(a[1..], b[1..])))
  }

  lemma {:induction false} StringLessIrreflexive(a: string)
    ensures !StringLess(a, a)
  {
    if a != [] {
      StringLessIrreflexive(a[1..]);
    }
  }

  /** The declared `kvs`: pattern to operation names, in ascending pattern order as a `BTreeMap` holds them. */
  type KvsYaml = entries: seq<(string, seq<string>)>
    | forall i, j :: 0 <= i < j < |entries| ==> StringLess(entries[i].0, entries[j].0)
    witness []

  /** A function's declaration (`FnMetaYaml`). */
  datatype FnMetaYaml = FnMetaYaml(event: seq<FnEventYaml>, args: seq<FnArgYaml>, kvs: Option<KvsYaml>)

  /** A function's metadata, as the worker consults it. */
  datatype FnMeta = FnMeta(event: seq<FnEvent>, args: seq<FnArg>, kvs: Option<seq<KvMeta>>)
  {
    /** `try_get_kv_meta_by_index`: the permission in slot `index`, if there is one. */
    function TryGetKvMeta(index: nat): (r: Option<KvMeta>)
      ensures r.Some? <==> kvs.Some? && index < |kvs.value|
      ensures r.Some? ==> r.value == kvs.value[index]
    {
      if kvs.Some? && index < |kvs.value| then Some(kvs.value[index]) else None
    }

    /** `get_kv_meta_by_index_unwrap`: callers guarantee that the slot exists. */
    function GetKvMeta(index: nat): (m: KvMeta)
      requires TryGetKvMeta(index).Some?
      ensures TryGetKvMeta(index) == Some(m)
    {
      TryGetKvMeta(index).value
    }

    /** Every `KvSet` event names a slot that exists (what loading checks). */
    predicate KvSetIndicesValid()
    {
      forall k :: 0 <= k < |event| && event[k].KvSet? ==> TryGetKvMeta(event[k].index).Some?
    }

    /** Whether event `k` is a `KvSet` whose slot holds exactly `pattern`. */
    predicate TriggersOn(k: nat, pattern: KeyPattern)
    {
      k < |event| && event[k].KvSet? && TryGetKvMeta(event[k].index).Some?
      && TryGetKvMeta(event[k].index).value.pattern == pattern
    }

    /** The scan of `find_will_trigger_kv_event` from event `k` on. */
    function FindTriggerFrom(k: nat, pattern: KeyPattern, op: KvOp): (r: Option<KvMeta>)
      requires op == Set ==> KvSetIndicesValid()
      decreases |event| - k
      ensures r.Some? ==> op == Set && r.value.pattern == pattern && kvs.Some? && r.value in kvs.value
    {
      if k >= |event| then None
      else match event[k]
        case HttpApp => FindTriggerFrom(k + 1, pattern, op)
        case KvSet(i) =>
          if op == Set && GetKvMeta(i).pattern == pattern then Some(GetKvMeta(i))
          else FindTriggerFrom(k + 1, pattern, op)
    }

    /**
      `find_will_trigger_kv_event`: the permission of the first `KvSet` event
      whose slot holds a pattern string-equal to `pattern`, for `Set` only.
     */
    function FindWillTriggerKvEvent(pattern: KeyPattern, op: KvOp): (r: Option<KvMeta>)
      requires op == Set ==> KvSetIndicesValid()
      ensures r.Some? ==> op == Set && r.value.pattern == pattern && kvs.Some? && r.value in kvs.value
    {
      FindTriggerFrom(0, pattern, op)
    }

    /** What `match_key` returns: the pattern of the first permission that grants `op` on the decoded key. */
    function MatchKeySpec(key: seq<Byte>, op: KvOp): Option<KeyPattern>
    {
      match Decode(key)
      case None => None
      case Some(text) => if kvs.None? then None else FirstGranting(kvs.value, text, op)
    }

    /** `FnMeta::match_key`: scans the permissions in order and stops at the first that grants `op`. */
    method MatchKey(key: seq<Byte>, op: KvOp) returns (r: Option<KeyPattern>)
      ensures r == MatchKeySpec(key, op)
    {
      var text := Decode(key);
      if text.None? {
        return None;
      }
      if kvs.Some? {
        var list := kvs.value;
        for i := 0 to |list|
          invariant FirstGranting(list[i..], text.value, op) == FirstGranting(list, text.value, op)
        {
          var kv := list[i];
          assert list[i..][1..] == list[i + 1..];
          if kv.pattern.MatchKey(text.value) {
            match op
            case Get =>
              if kv.allowGet {
                return Some(kv.pattern);
              }
            case Set =>
              if kv.allowSet {
                return Some(kv.pattern);
              }
            case Delete =>
              if kv.allowDelete {
                return Some(kv.pattern);
              }
          }
        }
      }
      return None;
    }
  }

  /** The pattern of the first permission in `kvs` that grants `op` on `key`. */
  function FirstGranting(kvs: seq<KvMeta>, key: string, op: KvOp): Option<KeyPattern>
  {
    if kvs == [] then None
    else if Grants(kvs[0], key, op) then Some(kvs[0].pattern)
    else FirstGranting(kvs[1..], key, op)
  }

  /** `FirstGranting` finds nothing exactly when no entry both matches and allows. */
  lemma {:induction false} FirstGrantingNoneIff(kvs: seq<KvMeta>, key: string, op: KvOp)
    ensures FirstGranting(kvs, key, op) == None <==>
      forall i :: 0 <= i < |kvs| ==> !Grants(kvs[i], key, op)
  {
    if kvs != [] {
      FirstGrantingNoneIff(kvs[1..], key, op);
      assert forall i :: 1 <= i < |kvs| ==> kvs[i] == kvs[1..][i - 1];
    }
  }

  /** `FirstGranting` is "the first entry, in list order, that both matches and allows". */
  lemma {:induction false} FirstGrantingIff(kvs: seq<KvMeta>, key: string, op: KvOp, p: KeyPattern)
    ensures FirstGranting(kvs, key, op) == Some(p) <==>
      exists i :: (0 <= i < |kvs| && kvs[i].pattern == p && Grants(kvs[i], key, op)
        && forall j :: 0 <= j < i ==> !Grants(kvs[j], key, op))
    ensures FirstGranting(kvs, key, op) == None <==>
      forall i :: 0 <= i < |kvs| ==> !Grants(kvs[i], key, op)
  {
    FirstGrantingNoneIff(kvs, key, op);
    if kvs != [] && !Grants(kvs[0], key, op) {
      var tail := kvs[1..];
      FirstGrantingIff(tail, key, op, p);
      if exists i :: (0 <= i < |kvs| && kvs[i].pattern == p && Grants(kvs[i], key, op)
        && forall j :: 0 <= j < i ==> !Grants(kvs[j], key, op))
      {
        var i :| 0 <= i < |kvs| && kvs[i].pattern == p && Grants(kvs[i], key, op)
          && forall j :: 0 <= j < i ==> !Grants(kvs[j], key, op);
        assert tail[i - 1] == kvs[i];
        assert forall j :: 0 <= j < i - 1 ==> !Grants(tail[j], key, op) by {
          forall j | 0 <= j < i - 1 ensures !Grants(tail[j], key, op) {
            assert tail[j] == kvs[j + 1];
          }
        }
      }
      if FirstGranting(tail, key, op) == Some(p) {
        var i :| 0 <= i < |tail| && tail[i].pattern == p && Grants(tail[i], key, op)
          && forall j :: 0 <= j < i ==> !Grants(tail[j], key, op);
        assert kvs[i + 1] == tail[i];
        assert forall j :: 0 <= j < i + 1 ==> !Grants(kvs[j], key, op) by {
          forall j | 0 <= j < i + 1 ensures !Grants(kvs[j], key, op) {
            if j > 0 { assert kvs[j] == tail[j - 1]; }
          }
        }
      }
    }
  }

  /**
    `match_key` decides access: without text (bytes that are not UTF-8) or
    without declared permissions it is None whatever the operation; otherwise
    it is the pattern of the first permission, in declared order, that matches
    the key and allows the operation, and None when no permission does both.
   */
  lemma MatchKeyDecidesAccess(f: FnMeta, key: seq<Byte>, op: KvOp, p: KeyPattern)
    ensures Decode(key).None? || f.kvs.None? ==> f.MatchKeySpec(key, op).None?
    ensures f.MatchKeySpec(key, op) == Some(p) <==>
      Decode(key).Some? && f.kvs.Some?
      && exists i :: (0 <= i < |f.kvs.value| && f.kvs.value[i].pattern == p
        && Grants(f.kvs.value[i], Decode(key).value, op)
        && forall j :: 0 <= j < i ==> !Grants(f.kvs.value[j], Decode(key).value, op))
    ensures f.MatchKeySpec(key, op).None? <==>
      Decode(key).None? || f.kvs.None?
      || forall i :: 0 <= i < |f.kvs.value| ==> !Grants(f.kvs.value[i], Decode(key).value, op)
  {
    if Decode(key).Some? && f.kvs.Some? {
      FirstGrantingIff(f.kvs.value, Decode(key).value, op, p);
    }
  }

  /**
    `find_will_trigger_kv_event` confirms a trigger by string equality of
    patterns: it returns a permission exactly when the operation is `Set` and
    some `KvSet` event's slot holds that very pattern, and what it returns is
    the permission of the first such event.
   */
  lemma {:induction false} FindTriggerFromIff(f: FnMeta, k: nat, pattern: KeyPattern, op: KvOp)
    requires op == Set ==> f.KvSetIndicesValid()
    ensures f.FindTriggerFrom(k, pattern, op).Some? <==>
      op == Set && exists j :: k <= j < |f.event| && f.TriggersOn(j, pattern)
    ensures f.FindTriggerFrom(k, pattern, op).Some? ==>
      exists j :: (k <= j < |f.event| && f.TriggersOn(j, pattern)
        && f.FindTriggerFrom(k, pattern, op).value == f.kvs.value[f.event[j].index]
        && forall i :: k <= i < j ==> !f.TriggersOn(i, pattern))
    decreases |f.event| - k
  {
    if k < |f.event| {
      FindTriggerFromIff(f, k + 1, pattern, op);
      if f.FindTriggerFrom(k, pattern, op).Some? && !f.TriggersOn(k, pattern) {
        var j :| k + 1 <= j < |f.event| && f.TriggersOn(j, pattern)
          && f.FindTriggerFrom(k + 1, pattern, op).value == f.kvs.value[f.event[j].index]
          && forall i :: k + 1 <= i < j ==> !f.TriggersOn(i, pattern);
        assert forall i :: k <= i < j ==> !f.TriggersOn(i, pattern);
      }
    }
  }

  lemma FindWillTriggerKvEventIff(f: FnMeta, pattern: KeyPattern, op: KvOp)
    requires op == Set ==> f.KvSetIndicesValid()
    ensures f.FindWillTriggerKvEvent(pattern, op).Some? <==>
      op == Set && exists j :: 0 <= j < |f.event| && f.TriggersOn(j, pattern)
    ensures f.FindWillTriggerKvEvent(pattern, op).Some? ==>
      f.FindWillTriggerKvEvent(pattern, op).value.pattern == pattern
      && exists j :: (0 <= j < |f.event| && f.TriggersOn(j, pattern)
        && f.FindWillTriggerKvEvent(pattern, op).value == f.kvs.value[f.event[j].index]
        && forall i :: 0 <= i < j ==> !f.TriggersOn(i, pattern))
  {
    FindTriggerFromIff(f, 0, pattern, op);
  }

  /** An operation name that a permission may list. */
  predicate IsOpName(op: string)
  {
    op == "set" || op == "get" || op == "delete"
  }

  /** The first name in `ops` that is not an operation. */
  function FirstInvalidOp(ops: seq<string>): (r: Option<string>)
    ensures r.None? <==> forall i :: 0 <= i < |ops| ==> IsOpName(ops[i])
    ensures r.Some? ==> exists i :: (0 <= i < |ops| && ops[i] == r.value && !IsOpName(ops[i])
      && forall j :: 0 <= j < i ==> IsOpName(ops[j]))
  {
    if ops == [] then None
    else if !IsOpName(ops[0]) then Some(ops[0])
    else
      var r := FirstInvalidOp(ops[1..]);
      assert forall i :: 1 <= i < |ops| ==> ops[i] == ops[1..][i - 1];
      r
  }

  /**
    The permission that a pattern and its operation names declare: each flag
    is set exactly when its name is listed, and any other name is an error
    (the first such name, in list order).
   */
  function KvMetaSpec(key: string, ops: seq<string>): (r: Result<KvMeta, string>)
    ensures r.Success? <==> forall i :: 0 <= i < |ops| ==> IsOpName(ops[i])
    ensures r.Failure? ==> r.error in ops && !IsOpName(r.error)
    ensures r.Success? ==>
      && r.value.pattern == KeyPattern(key)
      && (r.value.allowSet <==> "set" in ops)
      && (r.value.allowGet <==> "get" in ops)
      && (r.value.allowDelete <==> "delete" in ops)
  {
    match FirstInvalidOp(ops)
    case Some(op) => Failure(op)
    case None => Success(KvMeta("set" in ops, "get" in ops, "delete" in ops, KeyPattern(key)))
  }

  /** The loop that turns one `kvs` entry into a `KvMeta`, failing on an unknown operation name. */
  method KvMetaFromYaml(key: string, ops: seq<string>) returns (r: Result<KvMeta, string>)
    ensures r == KvMetaSpec(key, ops)
  {
    var allowSet, allowGet, allowDelete := false, false, false;
    for i := 0 to |ops|
      invariant forall j :: 0 <= j < i ==> IsOpName(ops[j])
      invariant allowSet <==> "set" in ops[..i]
      invariant allowGet <==> "get" in ops[..i]
      invariant allowDelete <==> "delete" in ops[..i]
    {
      var op := ops[i];
      assert ops[..i + 1] == ops[..i] + [op];
      if op == "set" {
        allowSet := true;
      } else if op == "get" {
        allowGet := true;
      } else if op == "delete" {
        allowDelete := true;
      } else {
        return Failure(op);
      }
    }
    assert ops[..|ops|] == ops;
    r := Success(KvMeta(allowSet, allowGet, allowDelete, KeyPattern(key)));
  }

  /** The permission list of a declaration, in key order; the first bad operation name fails it. */
  function KvsSpec(entries: seq<(string, seq<string>)>): Result<seq<KvMeta>, string>
  {
    if entries == [] then Success([])
    else match KvMetaSpec(entries[0].0, entries[0].1)
      case Failure(op) => Failure(op)
      case Success(m) =>
        match KvsSpec(entries[1..])
        case Failure(op) => Failure(op)
        case Success(ms) => Success([m] + ms)
  }

  function EventsFromYaml(yaml: seq<FnEventYaml>): seq<FnEvent>
  {
    seq(|yaml|, i requires 0 <= i < |yaml| => EventFromYaml(yaml[i]))
  }

  function ArgsFromYaml(yaml: seq<FnArgYaml>): seq<FnArg>
  {
    seq(|yaml|, i requires 0 <= i < |yaml| => ArgFromYaml(yaml[i]))
  }

  /** What `From<FnMetaYaml> for FnMeta` produces, or the operation name it panics on. */
  function FnMetaSpec(yaml: FnMetaYaml): Result<FnMeta, string>
  {
    match yaml.kvs
    case None => Success(FnMeta(EventsFromYaml(yaml.event), ArgsFromYaml(yaml.args), None))
    case Some(entries) =>
      match KvsSpec(entries)
      case Failure(op) => Failure(op)
      case Success(kvs) => Success(FnMeta(EventsFromYaml(yaml.event), ArgsFromYaml(yaml.args), Some(kvs)))
  }

  /** `From<FnMetaYaml> for FnMeta`: converts every `kvs` entry in key order, then the events and arguments. */
  method FnMetaFromYaml(yaml: FnMetaYaml) returns (r: Result<FnMeta, string>)
    ensures r == FnMetaSpec(yaml)
  {
    var kvs: Option<seq<KvMeta>> := None;
    if yaml.kvs.Some? {
      var entries := yaml.kvs.value;
      var acc: seq<KvMeta> := [];
      assert entries[0..] == entries;
      if KvsSpec(entries).Success? {
        assert [] + KvsSpec(entries).value == KvsSpec(entries).value;
      }
      for i := 0 to |entries|
        invariant KvsSpec(entries) == PrependTo(acc, KvsSpec(entries[i..]))
      {
        var m := KvMetaFromYaml(entries[i].0, entries[i].1);
        assert entries[i..][0] == entries[i] && entries[i..][1..] == entries[i + 1..];
        if m.Failure? {
          return Failure(m.error);
        }
        if KvsSpec(entries[i + 1..]).Success? {
          var ms := KvsSpec(entries[i + 1..]).value;
          assert acc + ([m.value] + ms) == (acc + [m.value]) + ms;
        }
        acc := acc + [m.value];
      }
      assert entries[|entries|..] == [] && acc + [] == acc;
      kvs := Some(acc);
    }
    r := Success(FnMeta(EventsFromYaml(yaml.event), ArgsFromYaml(yaml.args), kvs));
  }

  function PrependTo(acc: seq<KvMeta>, rest: Result<seq<KvMeta>, string>): Result<seq<KvMeta>, string>
  {
    match rest
    case Failure(op) => Failure(op)
    case Success(ms) => Success(acc + ms)
  }

  /**
    The permission list built from a `BTreeMap` has one permission per entry,
    in the same (ascending) order, each carrying the entry's pattern and
    exactly the flags its operation names list; it fails exactly when some
    entry lists a name other than set, get or delete.
   */
  lemma {:induction false} KvsSpecProperties(entries: seq<(string, seq<string>)>)
    ensures KvsSpec(entries).Success? <==>
      forall i, k :: 0 <= i < |entries| && 0 <= k < |entries[i].1| ==> IsOpName(entries[i].1[k])
    ensures KvsSpec(entries).Success? ==>
      var kvs := KvsSpec(entries).value;
      |kvs| == |entries|
      && forall i :: 0 <= i < |entries| ==> KvMetaSpec(entries[i].0, entries[i].1) == Success(kvs[i])
  {
    if entries != [] {
      KvsSpecProperties(entries[1..]);
      assert forall i :: 1 <= i < |entries| ==> entries[i] == entries[1..][i - 1];
      if KvsSpec(entries).Success? {
        var kvs := KvsSpec(entries).value;
        assert forall i :: 1 <= i < |entries| ==> kvs[i] == KvsSpec(entries[1..]).value[i - 1];
      }
      if forall i, k :: 0 <= i < |entries| && 0 <= k < |entries[i].1| ==> IsOpName(entries[i].1[k]) {
        assert KvMetaSpec(entries[0].0, entries[0].1).Success?;
      }
    }
  }

  /**
    Converting a declaration: it fails exactly when some `kvs` entry lists an
    unknown operation; otherwise events and arguments are carried over one to
    one in order, and the permissions follow the `kvs` entries in ascending
    pattern order, so their patterns are pairwise different and slot `i` is
    the `i`-th pattern in that order.
   */
  lemma FnMetaFromYamlProperties(yaml: FnMetaYaml)
    ensures FnMetaSpec(yaml).Success? <==>
      yaml.kvs.None? || forall i, k :: 0 <= i < |yaml.kvs.value| && 0 <= k < |yaml.kvs.value[i].1| ==> IsOpName(yaml.kvs.value[i].1[k])
    ensures FnMetaSpec(yaml).Success? ==>
      var f := FnMetaSpec(yaml).value;
      && |f.event| == |yaml.event| && (forall i :: 0 <= i < |yaml.event| ==> f.event[i] == EventFromYaml(yaml.event[i]))
      && |f.args| == |yaml.args| && (forall i :: 0 <= i < |yaml.args| ==> f.args[i] == ArgFromYaml(yaml.args[i]))
      && f.kvs.Some? == yaml.kvs.Some?
      && (f.kvs.Some? ==>
        && |f.kvs.value| == |yaml.kvs.value|
        && (forall i :: 0 <= i < |f.kvs.value| ==> f.kvs.value[i].pattern == KeyPattern(yaml.kvs.value[i].0))
        && (forall i :: 0 <= i < |f.kvs.value| ==>
             && (f.kvs.value[i].allowSet <==> "set" in yaml.kvs.value[i].1)
             && (f.kvs.value[i].allowGet <==> "get" in yaml.kvs.value[i].1)
             && (f.kvs.value[i].allowDelete <==> "delete" in yaml.kvs.value[i].1))
        && (forall i, j :: 0 <= i < j < |f.kvs.value| ==>
             StringLess(f.kvs.value[i].pattern.template, f.kvs.value[j].pattern.template))
        && (forall i, j :: 0 <= i < |f.kvs.value| && 0 <= j < |f.kvs.value| && i != j ==>
             f.kvs.value[i].pattern != f.kvs.value[j].pattern))
  {
    if yaml.kvs.Some? {
      var entries := yaml.kvs.value;
      KvsSpecProperties(entries);
      if KvsSpec(entries).Success? {
        var kvs := KvsSpec(entries).value;
        forall i, j | 0 <= i < |kvs| && 0 <= j < |kvs| && i != j
          ensures kvs[i].pattern != kvs[j].pattern
        {
          if i < j {
            assert StringLess(entries[i].0, entries[j].0);
            StringLessIrreflexive(entries[i].0);
          } else {
            assert StringLess(entries[j].0, entries[i].0);
            StringLessIrreflexive(entries[j].0);
          }
        }
      }
    }
  }
}
