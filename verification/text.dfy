/** Byte-string helpers with the semantics of Go's `bytes` and `strings`
    packages that the git and GitHub code relies on: `TrimSpace`,
    `HasPrefix`, `HasSuffix`, `Split` and `Join` on a single-character
    separator. Bytes are modelled as characters. */
module Text {

  /** The ASCII white-space set of Go's `bytes.TrimSpace`. */
  predicate IsSpace(c: char) {
    c == ' ' || c == '\t' || c == '\n' || c == '\U{000B}' || c == '\U{000C}' || c == '\r'
  }

  predicate HasPrefix(s: string, p: string) {
    |p| <= |s| && s[..|p|] == p
  }

  predicate HasSuffix(s: string, x: string) {
    |x| <= |s| && s[|s| - |x|..] == x
  }

  /** Number of occurrences of `c` in `s`. */
  function Count(s: string, c: char): nat
    decreases |s|
  {
    if |s| == 0 then 0 else (if s[0] == c then 1 else 0) + Count(s[1..], c)
  }

  lemma {:induction false} CountAppend(a: string, b: string, c: char)
    ensures Count(a + b, c) == Count(a, c) + Count(b, c)
    decreases |a|
  {
    if |a| == 0 {
      assert a + b == b;
    } else {
      assert (a + b)[1..] == a[1..] + b;
      CountAppend(a[1..], b, c);
    }
  }

  lemma {:induction false} CountAbsent(s: string, c: char)
    ensures Count(s, c) == 0 <==> c !in s
    decreases |s|
  {
    if |s| > 0 {
      CountAbsent(s[1..], c);
      assert c in s <==> s[0] == c || c in s[1..] by {
        assert s == [s[0]] + s[1..];
      }
    }
  }

  /** Drops leading white space (see `TrimLeftSpec`). */
  function TrimLeft(s: string): string
    decreases |s|
  {
    if |s| > 0 && IsSpace(s[0]) then TrimLeft(s[1..]) else s
  }

  /** The left-trimmed string is the suffix of `s` that starts at its first
      non-space character. */
  lemma {:induction false} TrimLeftSpec(s: string)
    ensures var r := TrimLeft(s);
      && HasSuffix(s, r)
      && (forall i :: 0 <= i < |s| - |r| ==> IsSpace(s[i]))
      && (r == [] || !IsSpace(r[0]))
    decreases |s|
  {
    if |s| > 0 && IsSpace(s[0]) {
      TrimLeftSpec(s[1..]);
      var r := TrimLeft(s);
      assert s[|s| - |r|..] == s[1..][|s| - 1 - |r|..];
      forall i | 0 < i < |s| - |r| ensures IsSpace(s[i]) {
        assert s[i] == s[1..][i - 1];
      }
    }
  }

  /** Drops trailing white space (see `TrimRightSpec`). */
  function TrimRight(s: string): string
    decreases |s|
  {
    if |s| > 0 && IsSpace(s[|s| - 1]) then TrimRight(s[..|s| - 1]) else s
  }

  /** The right-trimmed string is the prefix of `s` that ends at its last
      non-space character. */
  lemma {:induction false} TrimRightSpec(s: string)
    ensures var r := TrimRight(s);
      && HasPrefix(s, r)
      && (forall i :: |r| <= i < |s| ==> IsSpace(s[i]))
      && (r == [] || !IsSpace(r[|r| - 1]))
    decreases |s|
  {
    if |s| > 0 && IsSpace(s[|s| - 1]) {
      var t := s[..|s| - 1];
      TrimRightSpec(t);
      var r := TrimRight(s);
      assert s[..|r|] == t[..|r|];
      forall i | |r| <= i < |s| - 1 ensures IsSpace(s[i]) {
        assert s[i] == t[i];
      }
    }
  }

  /** Go's `bytes.TrimSpace` restricted to ASCII white space. */
  function TrimSpace(s: string): string {
    TrimRight(TrimLeft(s))
  }

  /** A trimmed string is empty exactly when the input is all white space,
      and otherwise neither starts nor ends with white space. */
  lemma TrimSpaceEmptyIff(s: string)
    ensures TrimSpace(s) == [] <==> forall i :: 0 <= i < |s| ==> IsSpace(s[i])
    ensures TrimSpace(s) != [] ==> !IsSpace(TrimSpace(s)[0]) && !IsSpace(TrimSpace(s)[|TrimSpace(s)| - 1])
    ensures |TrimSpace(s)| <= |s|
  {
    var l := TrimLeft(s);
    var r := TrimRight(l);
    TrimLeftSpec(s);
    TrimRightSpec(l);
    if r != [] {
      assert r[0] == l[0];
    }
  }

  /** When `s` ends in a suffix `x` that holds no white space, trimming
      keeps that suffix and only removes leading white space. */
  lemma TrimSpaceKeepsSolidSuffix(s: string, x: string)
    requires HasSuffix(s, x)
    requires x != []
    requires forall i :: 0 <= i < |x| ==> !IsSpace(x[i])
    ensures HasSuffix(TrimSpace(s), x)
    ensures HasSuffix(s, TrimSpace(s))
  {
    var l := TrimLeft(s);
    TrimLeftSpec(s);
    assert !IsSpace(s[|s| - |x|]) by {
      assert s[|s| - |x|] == x[0];
    }
    assert |l| >= |x|;
    assert l[|l| - |x|..] == x by {
      forall k | 0 <= k < |x| ensures l[|l| - |x| + k] == x[k] {
        assert l[|l| - |x| + k] == s[|s| - |x| + k];
      }
    }
    assert !IsSpace(l[|l| - 1]) by {
      assert l[|l| - 1] == x[|x| - 1];
    }
    assert TrimRight(l) == l;
  }

  /** Position of the first `c` in `s`, or `|s|` when there is none;
      `IndexOfSpec` says so. */
  function IndexOf(s: string, c: char): (i: nat)
    ensures i <= |s|
    decreases |s|
  {
    if |s| == 0 then 0 else if s[0] == c then 0 else 1 + IndexOf(s[1..], c)
  }

  /** Nothing before the index is `c`, and the index holds `c` unless it
      is the end. */
  lemma {:induction false} IndexOfSpec(s: string, c: char)
    ensures var i := IndexOf(s, c);
      && (forall j :: 0 <= j < i ==> s[j] != c)
      && (i < |s| ==> s[i] == c)
    decreases |s|
  {
    if |s| > 0 && s[0] != c {
      IndexOfSpec(s[1..], c);
      forall j | 1 <= j < IndexOf(s, c) ensures s[j] != c {
        assert s[j] == s[1..][j - 1];
      }
    }
  }

  /** Conversely, a position with those two properties is the index. */
  lemma IndexOfIs(s: string, c: char, i: nat)
    requires i <= |s|
    requires forall j :: 0 <= j < i ==> s[j] != c
    requires i < |s| ==> s[i] == c
    ensures IndexOf(s, c) == i
  {
    IndexOfSpec(s, c);
  }

  /** Go's `bytes.Split(s, sep)` / `strings.Split(s, sep)` for a
      one-character separator: the pieces between separators, so there is
      always at least one piece, and none of them contains the separator. */
  function Split(s: string, sep: char): (parts: seq<string>)
    ensures |parts| >= 1
    decreases |s|
  {
    var i := IndexOf(s, sep);
    if i == |s| then [s] else [s[..i]] + Split(s[i + 1..], sep)
  }

  /** Go's `bytes.Join(parts, sep)` for a one-character separator. */
  function Join(parts: seq<string>, sep: char): string
    decreases |parts|
  {
    if |parts| == 0 then []
    else if |parts| == 1 then parts[0]
    else parts[0] + [sep] + Join(parts[1..], sep)
  }

  /** One step of `Join`: the first piece, a separator, then the rest. */
  lemma JoinStep(parts: seq<string>, sep: char)
    requires |parts| >= 2
    ensures Join(parts, sep) == parts[0] + [sep] + Join(parts[1..], sep)
  {
  }

  /** One step of `Split`: the text before the first separator, then the
      pieces of the text after it. */
  lemma SplitStep(s: string, sep: char)
    requires IndexOf(s, sep) < |s|
    ensures Split(s, sep) == [s[..IndexOf(s, sep)]] + Split(s[IndexOf(s, sep) + 1..], sep)
  {
  }

  /** No piece contains the separator. */
  lemma {:induction false} SplitPiecesFree(s: string, sep: char)
    ensures forall k :: 0 <= k < |Split(s, sep)| ==> sep !in Split(s, sep)[k]
    decreases |s|
  {
    var i := IndexOf(s, sep);
    IndexOfSpec(s, sep);
    if i < |s| {
      SplitPiecesFree(s[i + 1..], sep);
      SplitStep(s, sep);
      var parts := Split(s, sep);
      assert parts[1..] == Split(s[i + 1..], sep);
      assert sep !in parts[0] by {
        assert parts[0] == s[..i];
        assert forall j :: 0 <= j < i ==> s[..i][j] == s[j];
      }
      forall k | 0 < k < |parts| ensures sep !in parts[k] {
        assert parts[k] == parts[1..][k - 1];
      }
    } else {
      assert Split(s, sep) == [s];
    }
  }

  /** Joining what was split gives back the input. */
  lemma {:induction false} JoinSplit(s: string, sep: char)
    ensures Join(Split(s, sep), sep) == s
    decreases |s|
  {
    var i := IndexOf(s, sep);
    if i < |s| {
      var head, tail := s[..i], s[i + 1..];
      var rest := Split(tail, sep);
      JoinSplit(tail, sep);
      SplitStep(s, sep);
      var parts := Split(s, sep);
      assert parts == [head] + rest;
      assert parts[0] == head && parts[1..] == rest;
      JoinStep(parts, sep);
      IndexOfSpec(s, sep);
      assert s == head + [sep] + tail;
    }
  }

  /** Splitting what was joined gives back the pieces, provided there is at
      least one piece and no piece contains the separator. */
  lemma {:induction false} SplitJoin(parts: seq<string>, sep: char)
    requires |parts| >= 1
    requires forall k :: 0 <= k < |parts| ==> sep !in parts[k]
    ensures Split(Join(parts, sep), sep) == parts
    decreases |parts|
  {
    var s := Join(parts, sep);
    var p := parts[0];
    if |parts| == 1 {
      IndexOfIs(p, sep, |p|);
      assert Split(p, sep) == [p];
    } else {
      var rest := Join(parts[1..], sep);
      JoinStep(parts, sep);
      assert s == p + [sep] + rest;
      assert forall j :: 0 <= j < |p| ==> s[j] == p[j];
      assert s[|p|] == sep;
      IndexOfIs(s, sep, |p|);
      assert s[..|p|] == p;
      assert s[|p| + 1..] == rest;
      SplitStep(s, sep);
      SplitJoin(parts[1..], sep);
      assert parts == [p] + parts[1..];
    }
  }

  /** There is one more piece than there are separators. */
  lemma {:induction false} SplitCount(s: string, sep: char)
    ensures |Split(s, sep)| == Count(s, sep) + 1
    decreases |s|
  {
    var i := IndexOf(s, sep);
    IndexOfSpec(s, sep);
    if i == |s| {
      CountAbsent(s, sep);
      assert Split(s, sep) == [s];
    } else {
      assert s == s[..i] + ([sep] + s[i + 1..]);
      CountAppend(s[..i], [sep] + s[i + 1..], sep);
      assert sep !in s[..i] by {
        assert forall j :: 0 <= j < i ==> s[..i][j] == s[j];
      }
      CountAbsent(s[..i], sep);
      assert ([sep] + s[i + 1..])[1..] == s[i + 1..];
      SplitStep(s, sep);
      SplitCount(s[i + 1..], sep);
    }
  }

  /** Joining a concatenation puts one separator between the two joins. */
  lemma {:induction false} JoinAppend(a: seq<string>, b: seq<string>, sep: char)
    requires |a| >= 1 && |b| >= 1
    ensures Join(a + b, sep) == Join(a, sep) + [sep] + Join(b, sep)
    decreases |a|
  {
    if |a| == 1 {
      assert (a + b)[1..] == b;
    } else {
      assert (a + b)[1..] == a[1..] + b;
      JoinAppend(a[1..], b, sep);
    }
  }

  /** The joined text starts with the first piece. */
  lemma JoinStartsWithFirst(parts: seq<string>, sep: char)
    requires |parts| >= 1
    ensures HasPrefix(Join(parts, sep), parts[0])
  {
    var s := Join(parts, sep);
    if |parts| > 1 {
      assert s[..|parts[0]|] == parts[0];
    }
  }
}
