/**
 The layered merge of the driver, in the order the code runs it: the base
 document (or an empty dict), then the sentinel entry, then the environment
 overlay, then the jq commands.
 */
module Merge {
  import opened Wrappers
  import opened Json
  import opened EnvOverlay
  import opened Transform

  /** The entry that makes the compiler read the document as a struct. */
  const SentinelKey := "_compconf_dummy:u32"
  const SentinelValue := Int(42)

  datatype MergeError =
    | BaseNotJson         // the base file's text does not parse
    | BaseNotObject       // the base parses, but not to a dict, so the sentinel cannot be assigned
    | JqNoResult(index: nat)  // the jq command at `index` produced no first result

  /** The document the merge starts from: the parsed base file, or an empty dict. */
  function BaseValue(base: Option<string>, loads: string -> Option<Value>): (r: Result<Value, MergeError>)
    ensures base.None? ==> r == Success(Object([]))
    ensures r.Failure? <==> base.Some? && loads(base.value).None?
    ensures r.Success? && base.Some? ==> loads(base.value) == Some(r.value)
  {
    match base
    case None => Success(Object([]))
    case Some(text) =>
      match loads(text)
      case None => Failure(BaseNotJson)
      case Some(v) => Success(v)
  }

  /**
   The document handed to the jq stage: base, sentinel, overlay. Fails when
   the base does not parse or is not a dict.
   */
  function Overlaid(base: Option<string>, env: Env, loads: string -> Option<Value>): (r: Result<Doc, MergeError>)
    ensures r.Failure? ==> r.error == BaseNotJson || r.error == BaseNotObject
  {
    var v :- BaseValue(base, loads);
    match v
    case Object(d) => Success(ApplyEnv(Set(d, SentinelKey, SentinelValue), env, loads))
    case _ => Failure(BaseNotObject)
  }

  /** The whole merge: the overlaid document run through the jq commands. */
  function Merge(base: Option<string>, env: Env, cmds: seq<string>, loads: string -> Option<Value>, jq: Jq)
    : (r: Result<Value, MergeError>)
    ensures r == Failure(BaseNotJson) <==> base.Some? && loads(base.value).None?
    ensures r == Failure(BaseNotObject) <==> base.Some? && loads(base.value).Some? && !loads(base.value).value.Object?
    ensures r.Failure? && r.error.JqNoResult? ==> r.error.index < |cmds|
    ensures Overlaid(base, env, loads).Success? ==>
              var folded := RunJq(Object(Overlaid(base, env, loads).value), cmds, jq);
              && (folded.Success? ==> r == Success(folded.value))
              && (folded.Failure? ==> r == Failure(JqNoResult(folded.error)))
  {
    var d :- Overlaid(base, env, loads);
    match RunJq(Object(d), cmds, jq)
    case Success(w) => Success(w)
    case Failure(i) => Failure(JqNoResult(i))
  }

  /**
   Layer precedence before jq: a key takes the value of the last overlay
   variable naming it; otherwise the sentinel key holds 42; otherwise the
   base value stands. Base keys keep their order at the front.
   */
  lemma LayerPrecedence(base: Option<string>, env: Env, loads: string -> Option<Value>, d: Doc, k: string)
    requires BaseValue(base, loads) == Success(Object(d))
    ensures Overlaid(base, env, loads).Success?
    ensures Keys(d) <= Keys(Overlaid(base, env, loads).value)
    ensures Get(Overlaid(base, env, loads).value, k)
         == if LastOverride(env, k, loads).Some? then LastOverride(env, k, loads)
            else if k == SentinelKey then Some(SentinelValue)
            else Get(d, k)
  {
    var s := Set(d, SentinelKey, SentinelValue);
    OverlayGet(s, env, k, loads);
    assert Keys(d) <= Keys(s);
  }

  /**
   The jq stage runs after the overlay, each command on the previous
   command's output: appending a command succeeds exactly when the shorter
   merge succeeds and the new command yields a result, which is then the
   merged document.
   */
  lemma MergeLastCommand(base: Option<string>, env: Env, cmds: seq<string>, c: string,
                         loads: string -> Option<Value>, jq: Jq)
    ensures Merge(base, env, cmds + [c], loads, jq).Success?
        <==> Merge(base, env, cmds, loads, jq).Success? && jq(c, Merge(base, env, cmds, loads, jq).value).Some?
    ensures Merge(base, env, cmds + [c], loads, jq).Success?
        ==> Merge(base, env, cmds + [c], loads, jq).value == jq(c, Merge(base, env, cmds, loads, jq).value).value
  {
    if Overlaid(base, env, loads).Success? {
      LastCommandDecides(Object(Overlaid(base, env, loads).value), cmds, c, jq);
    }
  }

  /**
   A command with no result aborts the merge: the merge fails at command `i`
   exactly when the base is a dict, every earlier command gave a result and
   command `i` gives none on the previous output.
   */
  lemma MergeFailsAt(base: Option<string>, env: Env, cmds: seq<string>, i: nat,
                     loads: string -> Option<Value>, jq: Jq)
    requires i < |cmds|
    ensures Merge(base, env, cmds, loads, jq) == Failure(JqNoResult(i))
        <==> && Overlaid(base, env, loads).Success?
             && RunJq(Object(Overlaid(base, env, loads).value), cmds[..i], jq).Success?
             && jq(cmds[i], RunJq(Object(Overlaid(base, env, loads).value), cmds[..i], jq).value).None?
  {
    if Overlaid(base, env, loads).Success? {
      FailsAt(Object(Overlaid(base, env, loads).value), cmds, jq, i);
    }
  }

  /** With no commands, the merge returns the overlaid document unchanged. */
  lemma NoCommandsNoChange(base: Option<string>, env: Env, loads: string -> Option<Value>, jq: Jq)
    requires Overlaid(base, env, loads).Success?
    ensures Merge(base, env, [], loads, jq) == Success(Object(Overlaid(base, env, loads).value))
  {
  }

  /**
   Base only: with no overlay variable and no command the result is the base
   dict with the sentinel assigned -- appended after the base keys, or
   overwritten in place when the base already has it.
   */
  lemma BaseOnly(text: string, env: Env, loads: string -> Option<Value>, jq: Jq, d: Doc)
    requires loads(text) == Some(Object(d))
    requires forall i :: 0 <= i < |env| ==> !IsOverlay(env[i].0)
    ensures Merge(Some(text), env, [], loads, jq).Success?
    ensures Merge(Some(text), env, [], loads, jq).value.Object?
    ensures var r := Merge(Some(text), env, [], loads, jq).value.fields;
            && Keys(r) == (if SentinelKey in Keys(d) then Keys(d) else Keys(d) + [SentinelKey])
            && Get(r, SentinelKey) == Some(SentinelValue)
            && (forall k :: k != SentinelKey ==> Get(r, k) == Get(d, k))
  {
    NoOverlayNoChange(Set(d, SentinelKey, SentinelValue), env, loads);
  }

  /** No base file, no overlay, no command: the document is the sentinel alone. */
  lemma NothingGiven(env: Env, loads: string -> Option<Value>, jq: Jq)
    requires forall i :: 0 <= i < |env| ==> !IsOverlay(env[i].0)
    ensures Merge(None, env, [], loads, jq) == Success(Object([Entry(SentinelKey, SentinelValue)]))
  {
    assert IndexOf([], SentinelKey) == None;
    assert Set([], SentinelKey, SentinelValue) == [Entry(SentinelKey, SentinelValue)];
    NoOverlayNoChange(Set([], SentinelKey, SentinelValue), env, loads);
  }
}
