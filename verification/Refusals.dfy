/**
  A refusal's detail, as DRF and the kernel build one: messages, lists and dicts,
  a dict being its entries in insertion order.
*/
module Refusals {
  import opened Prelude

  /** A field's name, or a row's index. */
  datatype Key = Name(text: string) | Index(at: int)

  /** `Bare` is what is left of a key or a character spread out of a detail that is no list. */
  datatype Detail =
    | Message(code: string, text: string)
    | Unexpected(names: seq<string>)
    | Bare(key: Key)
    | Lines(lines: seq<Detail>)
    | Table(entries: seq<Entry>)

  datatype Entry = Entry(key: Key, value: Detail)

  const NON_FIELD := Name("non_field_errors")

  predicate HasKey(es: seq<Entry>, k: Key) {
    es != [] && (es[0].key == k || HasKey(es[1..], k))
  }

  function Get(es: seq<Entry>, k: Key): Option<Detail> {
    if es == [] then None else if es[0].key == k then Some(es[0].value) else Get(es[1..], k)
  }

  /** `d[k] = v`: in place where the key is held, appended where it is not. */
  function Put(es: seq<Entry>, k: Key, v: Detail): (r: seq<Entry>)
  {
    if es == [] then [Entry(k, v)]
    else if es[0].key == k then [Entry(k, v)] + es[1..]
    else [es[0]] + Put(es[1..], k, v)
  }

  /** A dict's keys are all different. */
  predicate IsDict(es: seq<Entry>) {
    es != [] ==> !HasKey(es[1..], es[0].key) && IsDict(es[1..])
  }

  lemma {:induction false} GetOfPut(es: seq<Entry>, k: Key, v: Detail, q: Key)
    ensures Get(Put(es, k, v), q) == if q == k then Some(v) else Get(es, q)
  {
    if es != [] && es[0].key != k {
      GetOfPut(es[1..], k, v, q);
    }
  }

  lemma {:induction false} GetOfConcat(es: seq<Entry>, fs: seq<Entry>, k: Key)
    ensures Get(es + fs, k) == if Get(es, k).Some? then Get(es, k) else Get(fs, k)
  {
    if es == [] {
      assert es + fs == fs;
    } else {
      assert (es + fs)[1..] == es[1..] + fs;
      GetOfConcat(es[1..], fs, k);
    }
  }

  lemma {:induction false} GetNeedsKey(es: seq<Entry>, k: Key)
    ensures Get(es, k).Some? <==> HasKey(es, k)
    ensures HasKey(es, k) <==> exists i :: 0 <= i < |es| && es[i].key == k
    ensures Get(es, k).Some? ==> Entry(k, Get(es, k).value) in es
  {
    if es != [] {
      GetNeedsKey(es[1..], k);
      assert es == [es[0]] + es[1..];
      if HasKey(es[1..], k) {
        var i :| 0 <= i < |es| - 1 && es[1..][i].key == k;
        assert es[i + 1].key == k;
      }
    }
  }

  /** What a path of keys leads to. */
  function At(d: Detail, path: seq<Key>): Option<Detail>
    decreases |path|
  {
    if path == [] then Some(d)
    else if !d.Table? then None
    else
      match Get(d.entries, path[0])
      case None => None
      case Some(inner) => At(inner, path[1..])
  }
}
