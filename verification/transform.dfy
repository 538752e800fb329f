/**
 The jq stage: each command is run on the previous command's output and its
 first result becomes the new document. jq itself is not modelled; `jq(cmd, v)`
 is that first result, `None` when the command yields nothing or faults.
 */
module Transform {
  import opened Wrappers
  import opened Json

  type Jq = (string, Value) -> Option<Value>

  /**
   Runs `cmds` in order from `v`. A failure carries the position of the
   first command that produced no result.
   */
  function RunJq(v: Value, cmds: seq<string>, jq: Jq): (r: Result<Value, nat>)
    ensures r.Failure? ==> r.error < |cmds|
    decreases |cmds|
  {
    if |cmds| == 0 then Success(v)
    else
      match jq(cmds[0], v)
      case None => Failure(0)
      case Some(w) =>
        match RunJq(w, cmds[1..], jq)
        case Success(u) => Success(u)
        case Failure(i) => Failure(i + 1)
  }

  /** Running `a + b` is running `a`, then `b` on its output. */
  lemma {:induction false} RunJqAppend(v: Value, a: seq<string>, b: seq<string>, jq: Jq)
    ensures RunJq(v, a + b, jq)
         == match RunJq(v, a, jq)
            case Failure(i) => Failure(i)
            case Success(w) =>
              match RunJq(w, b, jq)
              case Success(u) => Success(u)
              case Failure(j) => Failure(|a| + j)
    decreases |a|
  {
    if |a| == 0 {
      assert a + b == b;
    } else {
      assert (a + b)[0] == a[0];
      assert (a + b)[1..] == a[1..] + b;
      match jq(a[0], v)
      case None =>
      case Some(w) => RunJqAppend(w, a[1..], b, jq);
    }
  }

  /**
   The run stops at command `i` exactly when the commands before it all
   produced a result and command `i`, given the last of them, produced none.
   */
  lemma FailsAt(v: Value, cmds: seq<string>, jq: Jq, i: nat)
    requires i < |cmds|
    ensures RunJq(v, cmds, jq) == Failure(i)
        <==> RunJq(v, cmds[..i], jq).Success? && jq(cmds[i], RunJq(v, cmds[..i], jq).value).None?
  {
    assert cmds == cmds[..i] + cmds[i..];
    RunJqAppend(v, cmds[..i], cmds[i..], jq);
    match RunJq(v, cmds[..i], jq)
    case Failure(j) =>
    case Success(w) =>
      assert cmds[i..][0] == cmds[i];
  }

  /** The last command alone decides the final document. */
  lemma LastCommandDecides(v: Value, cmds: seq<string>, c: string, jq: Jq)
    ensures RunJq(v, cmds + [c], jq).Success?
        <==> RunJq(v, cmds, jq).Success? && jq(c, RunJq(v, cmds, jq).value).Some?
    ensures RunJq(v, cmds + [c], jq).Success? ==> RunJq(v, cmds + [c], jq).value == jq(c, RunJq(v, cmds, jq).value).value
  {
    RunJqAppend(v, cmds, [c], jq);
  }
}
