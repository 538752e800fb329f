/**
 The environment overlay: every variable whose name carries the overlay
 prefix assigns its decoded key in the document, in the order the
 environment lists the variables.
 */
module EnvOverlay {
  import opened Wrappers
  import opened Json
  import KeyCodec
  import PyStr

  /** A snapshot of the process environment: (name, value) pairs in iteration order. */
  type Env = seq<(string, string)>

  predicate IsOverlay(name: string)
  {
    KeyCodec.EnvPrefix <= name
  }

  /**
   The value an overlay variable assigns: its text parsed as JSON by
   `loads`, or the text itself as a string when parsing fails.
   */
  function OverlayValue(raw: string, loads: string -> Option<Value>): Value
  {
    match loads(raw)
    case Some(v) => v
    case None => Str(raw)
  }

  /** One pass of the loop: an overlay variable assigns, any other is skipped. */
  function Step(d: Doc, var_: (string, string), loads: string -> Option<Value>): Doc
  {
    if IsOverlay(var_.0) then Set(d, KeyCodec.EnvKey(var_.0), OverlayValue(var_.1, loads)) else d
  }

  /**
   The overlay loop over the whole environment. Keys already present keep
   their order and new keys only ever come after them.
   */
  function ApplyEnv(d: Doc, env: Env, loads: string -> Option<Value>): (r: Doc)
    ensures Keys(d) <= Keys(r)
    ensures UniqueKeys(d) ==> UniqueKeys(r)
    decreases |env|
  {
    if |env| == 0 then d else ApplyEnv(Step(d, env[0], loads), env[1..], loads)
  }

  /**
   Reference definition of the overlay's effect on one key: the value set
   by the LAST overlay variable that decodes to `k`, if there is one.
   */
  function LastOverride(env: Env, k: string, loads: string -> Option<Value>): Option<Value>
    decreases |env|
  {
    if |env| == 0 then None
    else
      var last := env[|env| - 1];
      if IsOverlay(last.0) && KeyCodec.EnvKey(last.0) == k then Some(OverlayValue(last.1, loads))
      else LastOverride(env[..|env| - 1], k, loads)
  }

  /**
   Reference definition of the keys the overlay adds: the decoded keys of
   the overlay variables in environment order, each the first time it
   appears and only when it is not among the keys `seen` already.
   */
  function AddedKeys(seen: seq<string>, env: Env): seq<string>
    decreases |env|
  {
    if |env| == 0 then []
    else if IsOverlay(env[0].0) && KeyCodec.EnvKey(env[0].0) !in seen then
      [KeyCodec.EnvKey(env[0].0)] + AddedKeys(seen + [KeyCodec.EnvKey(env[0].0)], env[1..])
    else AddedKeys(seen, env[1..])
  }

  /**
   The document's key order after the overlay: the old keys, then each new
   key in the order its first overlay variable appears, as Python's dict
   assignment appends them.
   */
  lemma {:induction false} OverlayKeyOrder(d: Doc, env: Env, loads: string -> Option<Value>)
    ensures Keys(ApplyEnv(d, env, loads)) == Keys(d) + AddedKeys(Keys(d), env)
    decreases |env|
  {
    if |env| == 0 {
      assert Keys(d) + [] == Keys(d);
    } else {
      var s := Step(d, env[0], loads);
      var added := NewKey(Keys(d), env[0]);
      OverlayKeyOrder(s, env[1..], loads);
      StepKeys(d, env[0], loads);
      AddedKeysStep(Keys(d), env);
      PyStr.Regroup3(Keys(d), added, AddedKeys(Keys(d) + added, env[1..]));
    }
  }

  /** The key one variable adds to a document whose keys are `seen`: none, or its own. */
  function NewKey(seen: seq<string>, var_: (string, string)): seq<string>
  {
    if IsOverlay(var_.0) && KeyCodec.EnvKey(var_.0) !in seen then [KeyCodec.EnvKey(var_.0)] else []
  }

  lemma StepKeys(d: Doc, var_: (string, string), loads: string -> Option<Value>)
    ensures Keys(Step(d, var_, loads)) == Keys(d) + NewKey(Keys(d), var_)
  {
    if !(IsOverlay(var_.0) && KeyCodec.EnvKey(var_.0) !in Keys(d)) {
      assert Keys(d) + [] == Keys(d);
    }
  }

  lemma AddedKeysStep(seen: seq<string>, env: Env)
    requires |env| > 0
    ensures AddedKeys(seen, env) == NewKey(seen, env[0]) + AddedKeys(seen + NewKey(seen, env[0]), env[1..])
  {
    if NewKey(seen, env[0]) == [] {
      assert seen + [] == seen;
    }
  }

  /** The loop over `a + b` is the loop over `a` followed by the loop over `b`. */
  lemma {:induction false} ApplyEnvAppend(d: Doc, a: Env, b: Env, loads: string -> Option<Value>)
    ensures ApplyEnv(d, a + b, loads) == ApplyEnv(ApplyEnv(d, a, loads), b, loads)
    decreases |a|
  {
    if |a| == 0 {
      assert a + b == b;
    } else {
      assert (a + b)[0] == a[0];
      assert (a + b)[1..] == a[1..] + b;
      ApplyEnvAppend(Step(d, a[0], loads), a[1..], b, loads);
    }
  }

  /**
   After the overlay, a key holds the value of the last overlay variable
   naming it; a key no overlay variable names keeps its old value (or stays
   absent).
   */
  lemma {:induction false} OverlayGet(d: Doc, env: Env, k: string, loads: string -> Option<Value>)
    ensures Get(ApplyEnv(d, env, loads), k)
         == if LastOverride(env, k, loads).Some? then LastOverride(env, k, loads) else Get(d, k)
    ensures k in Keys(ApplyEnv(d, env, loads)) <==> k in Keys(d) || LastOverride(env, k, loads).Some?
    decreases |env|
  {
    if |env| > 0 {
      var init, last := env[..|env| - 1], env[|env| - 1];
      assert env == init + [last];
      ApplyEnvAppend(d, init, [last], loads);
      OverlayGet(d, init, k, loads);
      var mid := ApplyEnv(d, init, loads);
      assert ApplyEnv(mid, [last], loads) == Step(mid, last, loads);
      StepGet(mid, last, k, loads);
      assert LastOverride(env, k, loads)
          == if IsOverlay(last.0) && KeyCodec.EnvKey(last.0) == k then Some(OverlayValue(last.1, loads))
             else LastOverride(init, k, loads);
    }
  }

  /** One variable of the loop: it sets its own key and leaves every other key alone. */
  lemma StepGet(d: Doc, var_: (string, string), k: string, loads: string -> Option<Value>)
    ensures Get(Step(d, var_, loads), k)
         == if IsOverlay(var_.0) && KeyCodec.EnvKey(var_.0) == k then Some(OverlayValue(var_.1, loads)) else Get(d, k)
    ensures k in Keys(Step(d, var_, loads)) <==> k in Keys(d) || (IsOverlay(var_.0) && KeyCodec.EnvKey(var_.0) == k)
  {
  }

  /** The overlay variables of `env`, in their order. */
  function OverlayOnly(env: Env): (r: Env)
    ensures forall i :: 0 <= i < |r| ==> IsOverlay(r[i].0)
    ensures |r| <= |env|
  {
    if |env| == 0 then []
    else if IsOverlay(env[0].0) then [env[0]] + OverlayOnly(env[1..])
    else OverlayOnly(env[1..])
  }

  /** Variables without the prefix have no effect on the document. */
  lemma {:induction false} OnlyOverlayVariablesMatter(d: Doc, env: Env, loads: string -> Option<Value>)
    ensures ApplyEnv(d, env, loads) == ApplyEnv(d, OverlayOnly(env), loads)
    decreases |env|
  {
    if |env| > 0 {
      OnlyOverlayVariablesMatter(Step(d, env[0], loads), env[1..], loads);
      if IsOverlay(env[0].0) {
        var r := OverlayOnly(env);
        assert r[0] == env[0] && r[1..] == OverlayOnly(env[1..]);
      }
    }
  }

  /** With no overlay variable at all, the document is untouched. */
  lemma {:induction false} NoOverlayNoChange(d: Doc, env: Env, loads: string -> Option<Value>)
    requires forall i :: 0 <= i < |env| ==> !IsOverlay(env[i].0)
    ensures ApplyEnv(d, env, loads) == d
  {
    OnlyOverlayVariablesMatter(d, env, loads);
    assert OverlayOnly(env) == [] by {
      NoOverlaySelected(env);
    }
  }

  lemma {:induction false} NoOverlaySelected(env: Env)
    requires forall i :: 0 <= i < |env| ==> !IsOverlay(env[i].0)
    ensures OverlayOnly(env) == []
    decreases |env|
  {
    if |env| > 0 {
      NoOverlaySelected(env[1..]);
    }
  }

  /** `os.environ.get(name)`: names in an environment are distinct, the first match is taken. */
  function Lookup(env: Env, name: string): (r: Option<string>)
    ensures r.Some? <==> exists i :: 0 <= i < |env| && env[i].0 == name
    ensures r.Some? ==> exists i :: 0 <= i < |env| && env[i] == (name, r.value)
  {
    if |env| == 0 then None
    else if env[0].0 == name then Some(env[0].1)
    else
      var r := Lookup(env[1..], name);
      assert forall i :: 1 <= i < |env| ==> env[i] == env[1..][i - 1];
      r
  }
}
