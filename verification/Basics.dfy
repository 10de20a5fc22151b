/** Vocabulary shared by every module of the model. */
module Basics {

  datatype Option<+T> = None | Some(value: T)

  datatype Result<+T, +E> = Ok(value: T) | Err(error: E)

  /** Instants and durations, both in nanoseconds. A Go zero time is modelled as `None`. */
  type Time = int

  const SECOND: Time := 1_000_000_000
  const MINUTE: Time := 60 * SECOND

  /** How often, at most, the listener looks at the certificate and scrape password files. */
  const RELOAD_INTERVAL: Time := 30 * SECOND

  function Lookup<K, V>(m: map<K, V>, k: K): Option<V> {
    if k in m then Some(m[k]) else None
  }

  function Max(a: int, b: int): int {
    if a < b then b else a
  }

  /** The elements of `s` satisfying `keep`, in order. */
  function Select<T>(s: seq<T>, keep: T -> bool): seq<T> {
    if s == [] then []
    else (if keep(s[0]) then [s[0]] else []) + Select(s[1..], keep)
  }

  lemma {:induction false} SelectConcat<T>(a: seq<T>, b: seq<T>, keep: T -> bool)
    ensures Select(a + b, keep) == Select(a, keep) + Select(b, keep)
  {
    if a == [] {
      assert a + b == b;
    } else {
      var head := if keep(a[0]) then [a[0]] else [];
      assert (a + b)[0] == a[0] && (a + b)[1..] == a[1..] + b;
      SelectConcat(a[1..], b, keep);
      assert Select(a + b, keep) == head + (Select(a[1..], keep) + Select(b, keep));
    }
  }

  lemma {:induction false} SelectMembers<T>(s: seq<T>, keep: T -> bool)
    ensures forall x :: x in Select(s, keep) <==> x in s && keep(x)
  {
    if s != [] {
      SelectMembers(s[1..], keep);
      assert s == [s[0]] + s[1..];
    }
  }

  lemma {:induction false} SelectAll<T>(s: seq<T>, keep: T -> bool)
    requires forall x :: x in s ==> keep(x)
    ensures Select(s, keep) == s
  {
    if s != [] {
      SelectAll(s[1..], keep);
      assert s == [s[0]] + s[1..];
    }
  }

  lemma {:induction false} SelectNone<T>(s: seq<T>, keep: T -> bool)
    requires forall x :: x in s ==> !keep(x)
    ensures Select(s, keep) == []
  {
    if s != [] {
      SelectNone(s[1..], keep);
    }
  }

  function Flatten<T>(chunks: seq<seq<T>>): seq<T> {
    if chunks == [] then []
    else Flatten(chunks[..|chunks| - 1]) + chunks[|chunks| - 1]
  }

  lemma {:induction false} FlattenSelects<T>(whole: seq<seq<T>>, kept: seq<seq<T>>, keep: T -> bool)
    requires |whole| == |kept|
    requires forall i :: 0 <= i < |whole| ==> kept[i] == Select(whole[i], keep)
    ensures Flatten(kept) == Select(Flatten(whole), keep)
  {
    if whole != [] {
      var n := |whole| - 1;
      FlattenSelects(whole[..n], kept[..n], keep);
      SelectConcat(Flatten(whole[..n]), whole[n], keep);
    }
  }

  lemma {:induction false} FlattenMembers<T>(chunks: seq<seq<T>>, x: T)
    requires x in Flatten(chunks)
    ensures exists i :: 0 <= i < |chunks| && x in chunks[i]
  {
    var n := |chunks| - 1;
    if x !in chunks[n] {
      FlattenMembers(chunks[..n], x);
    }
  }

  lemma {:induction false} FlattenEmpties<T>(chunks: seq<seq<T>>)
    requires forall i :: 0 <= i < |chunks| ==> chunks[i] == []
    ensures Flatten(chunks) == []
  {
    if chunks != [] {
      FlattenEmpties(chunks[..|chunks| - 1]);
    }
  }

  lemma {:induction false} Reassociate<T>(a: seq<T>, b: seq<T>, c: seq<T>)
    ensures (a + b) + c == a + (b + c)
  {
  }
}
