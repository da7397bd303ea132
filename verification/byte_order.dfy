/** The order `sort.Strings` uses: Go's `<` on strings, which compares
    bytes lexicographically. Characters are compared by code point, which
    for valid UTF-8 text is the same order as comparing the encoded bytes. */
module ByteOrder {

  /** `a` sorts strictly before `b`. */
  predicate Less(a: string, b: string)
    decreases |a|
  {
    if |a| == 0 then |b| > 0
    else if |b| == 0 then false
    else if a[0] != b[0] then a[0] < b[0]
    else Less(a[1..], b[1..])
  }

  lemma {:induction false} LessIrreflexive(a: string)
    ensures !Less(a, a)
    decreases |a|
  {
    if |a| > 0 {
      LessIrreflexive(a[1..]);
    }
  }

  lemma {:induction false} LessTransitive(a: string, b: string, c: string)
    requires Less(a, b) && Less(b, c)
    ensures Less(a, c)
    decreases |a|
  {
    if |a| > 0 && a[0] == b[0] && b[0] == c[0] {
      LessTransitive(a[1..], b[1..], c[1..]);
    }
  }

  /** Any two different strings are ordered one way or the other. */
  lemma {:induction false} LessTotal(a: string, b: string)
    ensures a == b || Less(a, b) || Less(b, a)
    decreases |a|
  {
    if |a| > 0 && |b| > 0 && a[0] == b[0] {
      LessTotal(a[1..], b[1..]);
      if a[1..] == b[1..] {
        assert a == [a[0]] + a[1..] && b == [b[0]] + b[1..];
      }
    }
  }

  lemma {:induction false} LessAsymmetric(a: string, b: string)
    requires Less(a, b)
    ensures !Less(b, a)
    decreases |a|
  {
    if |a| > 0 && |b| > 0 && a[0] == b[0] {
      LessAsymmetric(a[1..], b[1..]);
    }
  }

  /** Strictly increasing, hence also free of repeats. */
  predicate StrictlySorted(s: seq<string>) {
    forall i, j :: 0 <= i < j < |s| ==> Less(s[i], s[j])
  }

  /** Puts `x` into its place in a strictly sorted sequence that lacks it. */
  function Insert(x: string, s: seq<string>): (r: seq<string>)
    requires StrictlySorted(s) && x !in s
    ensures StrictlySorted(r)
    ensures forall y :: y in r <==> y == x || y in s
    ensures |r| == |s| + 1
    decreases |s|
  {
    if |s| == 0 then [x]
    else if Less(x, s[0]) then
      InsertFront(x, s);
      [x] + s
    else
      LessTotal(x, s[0]);
      var rest := Insert(x, s[1..]);
      InsertBehind(x, s, rest);
      [s[0]] + rest
  }

  /** `x` below the first element goes in front. */
  lemma InsertFront(x: string, s: seq<string>)
    requires StrictlySorted(s) && |s| > 0 && Less(x, s[0])
    ensures StrictlySorted([x] + s)
  {
    forall j | 0 < j < |s| ensures Less(x, s[j]) {
      LessTransitive(x, s[0], s[j]);
    }
    var r := [x] + s;
    forall i, j | 0 <= i < j < |r| ensures Less(r[i], r[j]) {
      if i > 0 {
        assert r[i] == s[i - 1] && r[j] == s[j - 1];
      }
    }
  }

  /** The first element stays in front of the rest with `x` inserted. */
  lemma InsertBehind(x: string, s: seq<string>, rest: seq<string>)
    requires StrictlySorted(s) && |s| > 0 && Less(s[0], x)
    requires StrictlySorted(rest)
    requires forall y :: y in rest <==> y == x || y in s[1..]
    ensures StrictlySorted([s[0]] + rest)
  {
    forall j | 0 <= j < |rest| ensures Less(s[0], rest[j]) {
      assert rest[j] in rest;
      if rest[j] != x {
        var k :| 0 <= k < |s[1..]| && s[1..][k] == rest[j];
        assert s[k + 1] == rest[j];
      }
    }
  }

  /** A strictly sorted sequence is determined by its elements: there is
      only one sorted order of a set of strings. */
  lemma {:induction false} SortedUnique(a: seq<string>, b: seq<string>)
    requires StrictlySorted(a) && StrictlySorted(b)
    requires forall y :: y in a <==> y in b
    ensures a == b
    decreases |a|
  {
    if |a| == 0 {
      if |b| > 0 {
        HeadIsElement(b);
        assert false;
      }
    } else {
      assert a[0] in b;
      assert |b| > 0;
      MinimumIsFirst(a, b);
      forall y ensures y in a[1..] <==> y in b[1..] {
        if y in a[1..] {
          TailElement(a, b, y);
        }
        if y in b[1..] {
          TailElement(b, a, y);
        }
      }
      SortedUnique(a[1..], b[1..]);
      assert a == [a[0]] + a[1..] && b == [b[0]] + b[1..];
    }
  }

  lemma HeadIsElement(b: seq<string>)
    requires |b| > 0
    ensures b[0] in b
  {
  }

  /** With equal first elements, a later element of one is a later
      element of the other. */
  lemma TailElement(a: seq<string>, b: seq<string>, y: string)
    requires StrictlySorted(a) && |a| > 0 && |b| > 0 && a[0] == b[0]
    requires forall z :: z in a <==> z in b
    requires y in a[1..]
    ensures y in b[1..]
  {
    var k :| 0 <= k < |a[1..]| && a[1..][k] == y;
    assert Less(a[0], a[k + 1]);
    LessIrreflexive(y);
    assert y in a;
    var i :| 0 <= i < |b| && b[i] == y;
    assert b[1..][i - 1] == y;
  }

  /** Two strictly sorted sequences with the same elements start alike. */
  lemma MinimumIsFirst(a: seq<string>, b: seq<string>)
    requires StrictlySorted(a) && StrictlySorted(b) && |a| > 0 && |b| > 0
    requires forall y :: y in a <==> y in b
    ensures a[0] == b[0]
  {
    assert a[0] in b;
    assert b[0] in a;
    var i :| 0 <= i < |b| && b[i] == a[0];
    var j :| 0 <= j < |a| && a[j] == b[0];
    if i > 0 && j > 0 {
      assert Less(b[0], a[0]);
      assert Less(a[0], b[0]);
      LessAsymmetric(a[0], b[0]);
    }
  }

  /** The keys of a map in ascending order, each once, as the source
      collects them and calls `sort.Strings`. */
  method SortedKeys<T>(m: map<string, T>) returns (keys: seq<string>)
    ensures StrictlySorted(keys)
    ensures forall k :: k in keys <==> k in m
    ensures |keys| == |m|
  {
    keys := [];
    var pending := m.Keys;
    while pending != {}
      invariant pending <= m.Keys
      invariant StrictlySorted(keys)
      invariant forall k :: k in keys <==> k in m && k !in pending
      invariant |keys| + |pending| == |m.Keys|
      decreases |pending|
    {
      var k :| k in pending;
      keys := Insert(k, keys);
      pending := pending - {k};
    }
  }
}
