/**
 How an environment variable name becomes a document key: the fixed
 prefix is stripped and every `__` becomes `:`, so `COMPCONFENV_x__u32`
 names the key `x:u32`.
 */
module KeyCodec {
  import PyStr

  const EnvPrefix := "COMPCONFENV_"

  /** True when `s` has no two adjacent underscores. */
  predicate NoDunder(s: string)
  {
    forall i :: 0 <= i < |s| - 1 ==> !(s[i] == '_' && s[i + 1] == '_')
  }

  /** The document key named by an overlay variable. */
  function EnvKey(name: string): (r: string)
    ensures NoDunder(r)
  {
    DunderRewriteLeavesNone(PyStr.RemovePrefix(name, EnvPrefix));
    PyStr.Replace(PyStr.RemovePrefix(name, EnvPrefix), "__", ":")
  }

  /**
   Rewriting `__` to `:` leaves no `__` behind: an underscore survives only
   when the next character is not an underscore.
   */
  lemma {:induction false} DunderRewriteLeavesNone(s: string)
    ensures NoDunder(PyStr.Replace(s, "__", ":"))
    ensures |s| > 0 && s[0] != '_' ==> PyStr.Replace(s, "__", ":")[0] == s[0]
    decreases |s|
  {
    if |s| > 0 {
      if "__" <= s {
        DunderRewriteLeavesNone(s[2..]);
      } else {
        DunderRewriteLeavesNone(s[1..]);
        var r := PyStr.Replace(s, "__", ":");
        assert r == [s[0]] + PyStr.Replace(s[1..], "__", ":");
        if s[0] == '_' && |s| > 1 {
          assert s[1] != '_';
        }
      }
    }
  }

  /**
   Keys an overlay variable can name exactly: an underscore is never
   followed by another underscore or by a colon (`a_:b` would read back
   as `a:_b`).
   */
  predicate Encodable(key: string)
  {
    forall i :: 0 <= i < |key| - 1 ==> key[i] == '_' ==> key[i + 1] != '_' && key[i + 1] != ':'
  }

  /** The variable name that sets `key`: each `:` spelled `__`. */
  function EnvName(key: string): string
  {
    EnvPrefix + PyStr.Replace(key, ":", "__")
  }

  lemma {:induction false} ColonRoundTrip(key: string)
    requires Encodable(key)
    ensures PyStr.Replace(PyStr.Replace(key, ":", "__"), "__", ":") == key
    ensures |key| > 0 && key[0] != '_' && key[0] != ':' ==> PyStr.Replace(key, ":", "__")[0] == key[0]
    decreases |key|
  {
    if |key| > 0 {
      var enc := PyStr.Replace(key, ":", "__");
      var tail := PyStr.Replace(key[1..], ":", "__");
      ColonRoundTrip(key[1..]);
      if key[0] == ':' {
        assert enc == "__" + tail;
        assert (enc)[2..] == tail;
      } else {
        assert enc == [key[0]] + tail;
        assert enc[1..] == tail;
        if key[0] == '_' && |key| > 1 {
          assert key[1] != '_' && key[1] != ':';
          assert tail[0] == key[1];
        }
        assert !("__" <= enc);
      }
    }
  }

  /** Every encodable key is reached by exactly the variable `EnvName` builds. */
  lemma EnvNameRoundTrip(key: string)
    requires Encodable(key)
    ensures EnvPrefix <= EnvName(key)
    ensures EnvKey(EnvName(key)) == key
  {
    PyStr.RemovePrefixInverse(EnvPrefix, PyStr.Replace(key, ":", "__"));
    ColonRoundTrip(key);
  }

  /** The worked example: `COMPCONFENV_x__u32` sets `x:u32`. */
  lemma ExampleKey()
    ensures EnvKey("COMPCONFENV_x__u32") == "x:u32"
  {
    ExamplePrefix();
    ExampleRewrite();
  }

  lemma ExamplePrefix()
    ensures PyStr.RemovePrefix("COMPCONFENV_x__u32", EnvPrefix) == "x__u32"
  {
    assert "COMPCONFENV_x__u32" == EnvPrefix + "x__u32";
    PyStr.RemovePrefixInverse(EnvPrefix, "x__u32");
  }

  lemma ExampleRewrite()
    ensures PyStr.Replace("x__u32", "__", ":") == "x:u32"
  {
    ExampleSplit();
    PyStr.ReplaceKeep('x', "__" + "u32", "__", ":");
    PyStr.ReplaceHit("__", "u32", ":");
    PyStr.ReplaceAbsent("u32", "__", ":");
    ExampleKeyText();
  }

  lemma ExampleSplit()
    ensures "x__u32" == ['x'] + ("__" + "u32")
  {
  }

  lemma ExampleKeyText()
    ensures ['x'] + (":" + "u32") == "x:u32"
  {
  }
}
