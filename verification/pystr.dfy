/**
 The few Python `str` operations the driver relies on, over `string`
 (a `seq<char>`): `removeprefix`, `replace`, `split` and `join`.
 */
module PyStr {

  /** `text.removeprefix(prefix)`, as the `_removeprefix` polyfill computes it. */
  function RemovePrefix(text: string, prefix: string): (r: string)
    ensures prefix <= text ==> prefix + r == text
    ensures !(prefix <= text) ==> r == text
  {
    if prefix <= text then text[|prefix|..] else text
  }

  /** Stripping a prefix that was just prepended gives back the rest. */
  lemma RemovePrefixInverse(prefix: string, rest: string)
    ensures RemovePrefix(prefix + rest, prefix) == rest
  {
    assert prefix <= prefix + rest;
  }

  /**
   `s.replace(pat, sub)` for a non-empty pattern: occurrences are found
   scanning left to right, and a matched occurrence is consumed whole, so
   occurrences never overlap.
   */
  function Replace(s: string, pat: string, sub: string): string
    requires |pat| > 0
    decreases |s|
  {
    if |s| == 0 then ""
    else if pat <= s then sub + Replace(s[|pat|..], pat, sub)
    else [s[0]] + Replace(s[1..], pat, sub)
  }

  /** Replacing a one-character pattern distributes over concatenation. */
  lemma {:induction false} ReplaceCharAppend(a: string, b: string, c: char, sub: string)
    ensures Replace(a + b, [c], sub) == Replace(a, [c], sub) + Replace(b, [c], sub)
    decreases |a|
  {
    if |a| == 0 {
      assert a + b == b;
    } else {
      var x := a + b;
      assert x[0] == a[0] && x[1..] == a[1..] + b;
      ReplaceCharAppend(a[1..], b, c, sub);
      var head := if a[0] == c then sub else [a[0]];
      ReplaceFront(x, c, sub);
      ReplaceFront(a, c, sub);
      Regroup3(head, Replace(a[1..], [c], sub), Replace(b, [c], sub));
    }
  }

  /** One step of the scan for a one-character pattern. */
  lemma ReplaceFront(s: string, c: char, sub: string)
    requires |s| > 0
    ensures Replace(s, [c], sub) == (if s[0] == c then sub else [s[0]]) + Replace(s[1..], [c], sub)
  {
    assert [c] <= s <==> s[0] == c;
  }

  /** A pattern whose first character does not occur leaves the text unchanged. */
  lemma {:induction false} ReplaceAbsent(s: string, pat: string, sub: string)
    requires |pat| > 0 && pat[0] !in s
    ensures Replace(s, pat, sub) == s
    decreases |s|
  {
    if |s| > 0 {
      assert !(pat <= s) by {
        assert s[0] != pat[0];
      }
      ReplaceAbsent(s[1..], pat, sub);
      assert [s[0]] + s[1..] == s;
    }
  }

  /** Text that does not start with the pattern keeps its first character. */
  lemma ReplaceKeep(c: char, t: string, pat: string, sub: string)
    requires |pat| > 0 && c != pat[0]
    ensures Replace([c] + t, pat, sub) == [c] + Replace(t, pat, sub)
  {
    assert ([c] + t)[1..] == t;
    assert !(pat <= [c] + t) by {
      assert ([c] + t)[0] == c;
    }
  }

  /** An occurrence at the front is replaced and the scan resumes after it. */
  lemma ReplaceHit(pat: string, t: string, sub: string)
    requires |pat| > 0
    ensures Replace(pat + t, pat, sub) == sub + Replace(t, pat, sub)
  {
    DropFront(pat, t);
  }

  /** A one-character pattern that does not occur leaves the text unchanged. */
  lemma {:induction false} ReplaceCharAbsent(s: string, c: char, sub: string)
    requires c !in s
    ensures Replace(s, [c], sub) == s
    decreases |s|
  {
    if |s| > 0 {
      assert s[0] != c;
      assert !([c] <= s);
      ReplaceCharAbsent(s[1..], c, sub);
    }
  }

  /** After replacing a character by text that lacks it, the character is gone. */
  lemma {:induction false} ReplaceCharRemoves(s: string, c: char, sub: string)
    requires c !in sub
    ensures c !in Replace(s, [c], sub)
    decreases |s|
  {
    if |s| > 0 {
      ReplaceCharRemoves(s[1..], c, sub);
    }
  }

  /** The number of occurrences of `c` in `s`. */
  function Count(s: string, c: char): nat
  {
    if |s| == 0 then 0 else (if s[0] == c then 1 else 0) + Count(s[1..], c)
  }

  /** `sep.join(parts)` for a one-character separator. */
  function Join(parts: seq<string>, sep: char): string
  {
    if |parts| == 0 then ""
    else if |parts| == 1 then parts[0]
    else parts[0] + [sep] + Join(parts[1..], sep)
  }

  /**
   `s.split(sep)` for a one-character separator: always at least one piece,
   one more piece than there are separators, empty pieces kept, and joining
   the pieces back gives `s`.
   */
  function Split(s: string, sep: char): (r: seq<string>)
    ensures |r| == Count(s, sep) + 1
    ensures forall i :: 0 <= i < |r| ==> sep !in r[i]
    ensures Join(r, sep) == s
    decreases |s|
  {
    if |s| == 0 then [""]
    else
      var tail := Split(s[1..], sep);
      if s[0] == sep then
        assert ([""] + tail)[1..] == tail;
        [""] + tail
      else
        var r := [[s[0]] + tail[0]] + tail[1..];
        assert r[1..] == tail[1..];
        assert s == [s[0]] + s[1..];
        r
  }

  /** A piece without separators splits to itself. */
  lemma {:induction false} SplitNoSeparator(s: string, sep: char)
    requires sep !in s
    ensures Split(s, sep) == [s]
    decreases |s|
  {
    if |s| > 0 {
      SplitNoSeparator(s[1..], sep);
      assert s == [s[0]] + s[1..];
    }
  }

  /** Splitting at a separator that follows a separator-free piece. */
  lemma {:induction false} SplitAfterPiece(a: string, b: string, sep: char)
    requires sep !in a
    ensures Split(a + [sep] + b, sep) == [a] + Split(b, sep)
    decreases |a|
  {
    if |a| == 0 {
      assert a + [sep] + b == [sep] + b;
      SplitSepFirst(b, sep);
    } else {
      var t := a[1..] + [sep] + b;
      assert a + [sep] + b == [a[0]] + t;
      SplitAfterPiece(a[1..], b, sep);
      SplitCons(a[0], t, sep);
      assert [a[0]] + a[1..] == a;
    }
  }

  lemma SplitSepFirst(t: string, sep: char)
    ensures Split([sep] + t, sep) == [""] + Split(t, sep)
  {
    assert ([sep] + t)[1..] == t;
  }

  /** A character other than the separator joins the first piece. */
  lemma SplitCons(c: char, t: string, sep: char)
    requires c != sep
    ensures Split([c] + t, sep) == [[c] + Split(t, sep)[0]] + Split(t, sep)[1..]
  {
    assert ([c] + t)[1..] == t;
  }

  /** Joining separator-free pieces and splitting again gives the pieces back. */
  lemma {:induction false} SplitJoin(parts: seq<string>, sep: char)
    requires |parts| > 0
    requires forall i :: 0 <= i < |parts| ==> sep !in parts[i]
    ensures Split(Join(parts, sep), sep) == parts
    decreases |parts|
  {
    if |parts| == 1 {
      SplitNoSeparator(parts[0], sep);
    } else {
      SplitJoin(parts[1..], sep);
      SplitAfterPiece(parts[0], Join(parts[1..], sep), sep);
      assert parts == [parts[0]] + parts[1..];
    }
  }

  /** Length of the run of characters other than `c` at the front of `s`. */
  function RunBefore(s: string, c: char): (n: nat)
    ensures n <= |s|
    ensures forall i :: 0 <= i < n ==> s[i] != c
    ensures n < |s| ==> s[n] == c
  {
    if |s| == 0 || s[0] == c then 0 else 1 + RunBefore(s[1..], c)
  }

  /** What follows a prefix. */
  lemma DropFront<T>(a: seq<T>, b: seq<T>)
    ensures (a + b)[|a|..] == b
  {
  }

  /** Concatenation regrouped to the right. */
  lemma Regroup<T>(a: seq<T>, b: seq<T>, c: seq<T>, d: seq<T>)
    ensures a + b + c + d == a + (b + (c + d))
  {
  }

  lemma Regroup3<T>(a: seq<T>, b: seq<T>, c: seq<T>)
    ensures a + b + c == a + (b + c)
  {
  }
}
