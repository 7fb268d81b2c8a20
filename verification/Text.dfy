/** String splitting, joining and searching as Dart's String does them, and why split and
    join undo each other. */
module Text {
  import opened Wrappers

  const CRLF := "\r\n"
  const SPACE := " "

  predicate At(s: string, t: string, i: nat) {
    i + |t| <= |s| && s[i..i + |t|] == t
  }

  lemma AtTail(s: string, t: string)
    requires s != ""
    ensures forall i: nat :: At(s[1..], t, i) == At(s, t, i + 1)
    ensures At(s, t, 0) <==> t <= s
  {
    forall i: nat ensures At(s[1..], t, i) == At(s, t, i + 1) {
      if i + 1 + |t| <= |s| {
        assert s[1..][i..i + |t|] == s[i + 1..i + 1 + |t|];
      }
    }
  }

  /** The index of the first occurrence of `t` in `s` (indexOf). */
  function Find(s: string, t: string): (r: Option<nat>)
    ensures r.Some? ==> r.value + |t| <= |s|
  {
    if t <= s then Some(0)
    else if s == "" then None
    else match Find(s[1..], t)
      case None => None
      case Some(i) => Some(i + 1)
  }

  lemma {:induction false} FindIsFirst(s: string, t: string)
    ensures Find(s, t).None? <==> forall i: nat :: !At(s, t, i)
    ensures Find(s, t).Some? ==> At(s, t, Find(s, t).value) && forall i: nat :: i < Find(s, t).value ==> !At(s, t, i)
  {
    if s == "" {
      assert t == "" ==> At(s, t, 0);
    } else {
      AtTail(s, t);
      FindIsFirst(s[1..], t);
      assert forall i: nat :: i > 0 ==> At(s, t, i) == At(s[1..], t, i - 1);
    }
  }

  lemma FreeMeans(s: string, t: string)
    ensures Free(s, t) <==> forall i: nat :: !At(s, t, i)
  {
    FindIsFirst(s, t);
  }

  predicate Free(s: string, t: string) {
    Find(s, t).None?
  }

  function Split(s: string, sep: string): (parts: seq<string>)
    requires sep != ""
    ensures |parts| >= 1
    decreases |s|
  {
    match Find(s, sep)
    case None => [s]
    case Some(i) => [s[..i]] + Split(s[i + |sep|..], sep)
  }

  function Join(parts: seq<string>, sep: string): string {
    if parts == [] then ""
    else if |parts| == 1 then parts[0]
    else parts[0] + sep + Join(parts[1..], sep)
  }

  function LowerChar(c: char): char {
    if 'A' <= c <= 'Z' then c - 'A' + 'a' else c
  }

  function Lower(s: string): (r: string)
    ensures |r| == |s|
    ensures forall i :: 0 <= i < |s| ==> r[i] == LowerChar(s[i])
  {
    seq(|s|, i requires 0 <= i < |s| => LowerChar(s[i]))
  }

  /** No proper prefix of `sep` is also a suffix of it, so occurrences cannot overlap. */
  ghost predicate BorderFree(sep: string) {
    sep != "" && forall k :: 0 < k < |sep| ==> sep[..k] != sep[|sep| - k..]
  }

  lemma SeparatorsAreBorderFree()
    ensures BorderFree(CRLF) && BorderFree(SPACE)
  {
    assert CRLF[..1][0] == '\r' && CRLF[1..][0] == '\n';
  }

  // -------------------------------------------------------------------- finding

  lemma SliceOfSlice<T>(s: seq<T>, i: nat, j: nat, k: nat, n: nat)
    requires i <= j <= |s| && k <= n <= j - i
    ensures s[i..j][k..n] == s[i + k..i + n]
  {
    var x, y := s[i..j][k..n], s[i + k..i + n];
    forall m | 0 <= m < n - k ensures x[m] == y[m] {
      assert x[m] == s[i..j][k + m];
    }
    assert x == y;
  }

  lemma FreeSlice(s: string, t: string, i: nat, j: nat)
    requires Free(s, t) && i <= j <= |s|
    ensures Free(s[i..j], t)
  {
    FreeMeans(s, t);
    FreeMeans(s[i..j], t);
    forall k: nat ensures !At(s[i..j], t, k) {
      if k + |t| <= j - i {
        SliceOfSlice(s, i, j, k, k + |t|);
        assert !At(s, t, i + k);
      }
    }
  }

  lemma AtLeft(x: string, y: string, t: string, i: nat)
    requires i + |t| <= |x|
    ensures At(x + y, t, i) == At(x, t, i)
  {
    assert (x + y)[i..i + |t|] == x[i..i + |t|];
  }

  lemma AtRight(x: string, y: string, t: string, i: nat)
    ensures At(x + y, t, |x| + i) == At(y, t, i)
  {
    if i + |t| <= |y| {
      assert (x + y)[|x| + i..|x| + i + |t|] == y[i..i + |t|];
    }
  }

  lemma FindAppend(x: string, sep: string, rest: string)
    requires BorderFree(sep) && Free(x, sep)
    ensures Find(x + sep + rest, sep) == Some(|x|)
  {
    var s := x + sep + rest;
    FreeMeans(x, sep);
    FindIsFirst(s, sep);
    assert s[|x|..|x| + |sep|] == sep;
    assert At(s, sep, |x|);
    forall i: nat | i < |x| ensures !At(s, sep, i) {
      if i + |sep| <= |x| {
        assert s[i..i + |sep|] == x[i..i + |sep|];
        assert !At(x, sep, i);
      } else {
        var k := i + |sep| - |x|;
        assert s[i..i + |sep|][|sep| - k..] == s[|x|..|x| + |sep|][..k];
      }
    }
  }

  lemma NotAcross(x: string, c: char, y: string, t: string, i: nat)
    requires c !in t && i <= |x| < i + |t|
    ensures !At(x + [c] + y, t, i)
  {
    var s := x + [c] + y;
    if i + |t| <= |s| {
      assert s[i..i + |t|][|x| - i] == c;
    }
  }

  lemma AtAround(x: string, c: char, y: string, t: string, i: nat)
    requires c !in t && At(x + [c] + y, t, i)
    ensures At(x, t, i) || (i > |x| && At(y, t, i - |x| - 1))
  {
    if i + |t| <= |x| {
      assert x + [c] + y == x + ([c] + y);
      AtLeft(x, [c] + y, t, i);
    } else if i > |x| {
      AtRight(x + [c], y, t, i - |x| - 1);
    } else {
      NotAcross(x, c, y, t, i);
    }
  }

  /** A character that does not occur in `t` separates occurrences of `t`. */
  lemma FreeAround(x: string, c: char, y: string, t: string)
    requires Free(x, t) && Free(y, t) && c !in t
    ensures Free(x + [c] + y, t)
  {
    FreeMeans(x, t);
    FreeMeans(y, t);
    FreeMeans(x + [c] + y, t);
    forall i: nat ensures !At(x + [c] + y, t, i) {
      if At(x + [c] + y, t, i) {
        AtAround(x, c, y, t, i);
      }
    }
  }

  // -------------------------------------------------------------- split and join

  lemma JoinCons(x: string, xs: seq<string>, sep: string)
    ensures Join([x] + xs, sep) == if xs == [] then x else x + sep + Join(xs, sep)
  {
    assert ([x] + xs)[1..] == xs;
  }

  lemma {:induction false} JoinSplit(s: string, sep: string)
    requires sep != ""
    ensures Join(Split(s, sep), sep) == s
    decreases |s|
  {
    if Find(s, sep).Some? {
      var i := Find(s, sep).value;
      var tail := s[i + |sep|..];
      JoinSplit(tail, sep);
      JoinCons(s[..i], Split(tail, sep), sep);
      Reassemble(s, sep);
    }
  }

  lemma Reassemble(s: string, sep: string)
    requires Find(s, sep).Some?
    ensures s == s[..Find(s, sep).value] + sep + s[Find(s, sep).value + |sep|..]
  {
    FindIsFirst(s, sep);
  }

  lemma {:induction false} SplitJoin(parts: seq<string>, sep: string)
    requires BorderFree(sep) && parts != [] && forall p :: p in parts ==> Free(p, sep)
    ensures Split(Join(parts, sep), sep) == parts
  {
    if |parts| == 1 {
      assert parts == [parts[0]] && Free(parts[0], sep) && Join(parts, sep) == parts[0];
    } else {
      var rest := Join(parts[1..], sep);
      FindAppend(parts[0], sep, rest);
      SplitJoin(parts[1..], sep);
      var s := parts[0] + sep + rest;
      assert Join(parts, sep) == s;
      assert s[..|parts[0]|] == parts[0] && s[|parts[0]| + |sep|..] == rest;
      assert Split(s, sep) == [parts[0]] + Split(rest, sep);
    }
  }

  lemma FirstPartIsFree(s: string, sep: string)
    requires sep != "" && Find(s, sep).Some?
    ensures Free(s[..Find(s, sep).value], sep)
  {
    var n := Find(s, sep).value;
    FindIsFirst(s, sep);
    FreeMeans(s[..n], sep);
    forall i: nat ensures !At(s[..n], sep, i) {
      if i + |sep| <= n {
        assert s[..n][i..i + |sep|] == s[i..i + |sep|];
        assert !At(s, sep, i);
      }
    }
  }

  ghost predicate PieceOf(p: string, s: string) {
    exists i, j :: 0 <= i <= j <= |s| && p == s[i..j]
  }

  lemma PieceOfTail(p: string, s: string, n: nat)
    requires n <= |s| && PieceOf(p, s[n..])
    ensures PieceOf(p, s)
  {
    var i, j :| 0 <= i <= j <= |s[n..]| && p == s[n..][i..j];
    assert s[n..] == s[n..|s|];
    SliceOfSlice(s, n, |s|, i, j);
  }

  lemma SplitFirst(s: string, sep: string, n: nat)
    requires sep != "" && n + |sep| <= |s| && Find(s, sep) == Some(n)
    ensures Split(s, sep) == [s[..n]] + Split(s[n + |sep|..], sep)
  {
  }

  /** Split leaves no separator behind. */
  lemma {:induction false} PartsAreFree(s: string, sep: string, p: string)
    requires sep != "" && p in Split(s, sep)
    ensures Free(p, sep)
    decreases |s|
  {
    if Find(s, sep).Some? {
      var n := Find(s, sep).value;
      SplitFirst(s, sep, n);
      if p == s[..n] {
        FirstPartIsFree(s, sep);
      } else {
        PartsAreFree(s[n + |sep|..], sep, p);
      }
    }
  }

  lemma StartIsPiece(s: string, n: nat)
    requires n <= |s|
    ensures PieceOf(s[..n], s)
  {
    assert s[..n] == s[0..n];
  }

  /** Every part is a piece of the input. */
  lemma {:induction false} PartsArePieces(s: string, sep: string, p: string)
    requires sep != "" && p in Split(s, sep)
    ensures PieceOf(p, s)
    decreases |s|
  {
    if Find(s, sep).None? {
      StartIsPiece(s, |s|);
      assert s[..|s|] == s;
    } else {
      var n := Find(s, sep).value;
      SplitFirst(s, sep, n);
      if p == s[..n] {
        StartIsPiece(s, n);
      } else {
        PartsArePieces(s[n + |sep|..], sep, p);
        PieceOfTail(p, s, n + |sep|);
      }
    }
  }

  lemma PartsInherit(s: string, sep: string, t: string)
    requires sep != "" && Free(s, t)
    ensures forall p :: p in Split(s, sep) ==> Free(p, t)
  {
    forall p | p in Split(s, sep) ensures Free(p, t) {
      PartsArePieces(s, sep, p);
      var i, j :| 0 <= i <= j <= |s| && p == s[i..j];
      FreeSlice(s, t, i, j);
    }
  }

  lemma {:induction false} JoinIsFree(parts: seq<string>, t: string)
    requires t != "" && ' ' !in t && forall p :: p in parts ==> Free(p, t)
    ensures Free(Join(parts, SPACE), t)
  {
    if |parts| > 1 {
      JoinIsFree(parts[1..], t);
      FreeAround(parts[0], ' ', Join(parts[1..], SPACE), t);
    }
  }

  lemma LowerConcat(x: string, y: string)
    ensures Lower(x + y) == Lower(x) + Lower(y)
  {
  }
}
