/**
 JSON values as Python holds them after `json.loads`, and the configuration
 document: a Python `dict`, i.e. an insertion-ordered sequence of entries.
 Floats are not modelled.
 */
module Json {
  import opened Wrappers

  datatype Value =
    | Null
    | Bool(b: bool)
    | Int(n: int)
    | Str(s: string)
    | List(items: seq<Value>)
    | Object(fields: seq<Entry>)

  datatype Entry = Entry(key: string, val: Value)

  /** A configuration document: the entries of a dict in iteration order. */
  type Doc = seq<Entry>

  function Keys(d: Doc): seq<string>
  {
    seq(|d|, i requires 0 <= i < |d| => d[i].key)
  }

  /** A Python dict never holds a key twice. */
  predicate UniqueKeys(d: Doc)
  {
    forall i, j :: 0 <= i < j < |d| ==> d[i].key != d[j].key
  }

  /** Position of the entry for `k`, if any. */
  function IndexOf(d: Doc, k: string): (r: Option<nat>)
    ensures r.Some? ==> r.value < |d| && d[r.value].key == k
    ensures r.Some? ==> forall j :: 0 <= j < r.value ==> d[j].key != k
    ensures r.None? <==> k !in Keys(d)
  {
    if |d| == 0 then None
    else if d[0].key == k then
      assert Keys(d)[0] == k;
      Some(0)
    else
      match IndexOf(d[1..], k)
      case None =>
        assert Keys(d) == [d[0].key] + Keys(d[1..]);
        None
      case Some(i) =>
        assert Keys(d)[i + 1] == k;
        Some(i + 1)
  }

  /** `d.get(k)`. */
  function Get(d: Doc, k: string): (r: Option<Value>)
    ensures r.Some? <==> k in Keys(d)
  {
    match IndexOf(d, k)
    case None => None
    case Some(i) => Some(d[i].val)
  }

  /** Two documents with the same key sequence place every key alike. */
  lemma SameKeysSameIndex(d: Doc, e: Doc, k: string)
    requires Keys(d) == Keys(e)
    ensures IndexOf(d, k) == IndexOf(e, k)
  {
    assert |d| == |Keys(d)| == |e|;
    var a, b := IndexOf(d, k), IndexOf(e, k);
    assert a.None? <==> b.None?;
    if a.Some? {
      var i, j := a.value, b.value;
      assert e[i].key == Keys(e)[i] == Keys(d)[i] == k;
      assert d[j].key == Keys(d)[j] == Keys(e)[j] == k;
      assert !(i < j) && !(j < i);
    }
  }

  /** Overwriting the entry at `i` in place keeps keys and every other value. */
  lemma OverwriteFacts(d: Doc, i: nat, k: string, v: Value)
    requires IndexOf(d, k) == Some(i)
    ensures Keys(d[i := Entry(k, v)]) == Keys(d)
    ensures Get(d[i := Entry(k, v)], k) == Some(v)
    ensures forall k' :: k' != k ==> Get(d[i := Entry(k, v)], k') == Get(d, k')
    ensures UniqueKeys(d) ==> UniqueKeys(d[i := Entry(k, v)])
  {
    var r := d[i := Entry(k, v)];
    assert Keys(r) == Keys(d);
    assert forall j :: 0 <= j < |d| ==> r[j].key == d[j].key;
    forall k' ensures Get(r, k') == if k' == k then Some(v) else Get(d, k') {
      SameKeysSameIndex(r, d, k');
    }
  }

  /** Appending an entry for an absent key keeps every other value. */
  lemma AppendFacts(d: Doc, k: string, v: Value)
    requires k !in Keys(d)
    ensures Keys(d + [Entry(k, v)]) == Keys(d) + [k]
    ensures Get(d + [Entry(k, v)], k) == Some(v)
    ensures forall k' :: k' != k ==> Get(d + [Entry(k, v)], k') == Get(d, k')
    ensures UniqueKeys(d) ==> UniqueKeys(d + [Entry(k, v)])
  {
    var r := d + [Entry(k, v)];
    assert Keys(r) == Keys(d) + [k];
    assert forall j :: 0 <= j < |d| ==> d[j].key != k by {
      forall j | 0 <= j < |d| ensures d[j].key != k {
        assert Keys(d)[j] == d[j].key;
      }
    }
    forall k' ensures Get(r, k') == if k' == k then Some(v) else Get(d, k') {
      if k' == k {
        var x := IndexOf(r, k);
        assert r[|d|].key == k;
        assert x.Some?;
      } else {
        match IndexOf(d, k')
        case None =>
          assert k' !in Keys(r);
        case Some(j) =>
          var x := IndexOf(r, k');
          assert r[j] == d[j];
          assert x.Some?;
          assert x.value < |d|;
          assert r[x.value] == d[x.value];
      }
    }
  }

  /**
   `d[k] = v`: the entry for `k` now holds `v`; every other key keeps its
   value; an existing key keeps its position and a new key is appended.
   */
  function Set(d: Doc, k: string, v: Value): (r: Doc)
    ensures Get(r, k) == Some(v)
    ensures forall k' :: k' != k ==> Get(r, k') == Get(d, k')
    ensures k in Keys(d) ==> Keys(r) == Keys(d)
    ensures k !in Keys(d) ==> Keys(r) == Keys(d) + [k]
    ensures UniqueKeys(d) ==> UniqueKeys(r)
  {
    match IndexOf(d, k)
    case Some(i) =>
      OverwriteFacts(d, i, k, v);
      d[i := Entry(k, v)]
    case None =>
      AppendFacts(d, k, v);
      d + [Entry(k, v)]
  }
}
