/** String helpers shared by the modules: prefixes, substring search and global
    left-to-right replacement of a literal pattern (what JavaScript's
    `String.prototype.replace` does with a `/g` regular expression that has no
    metacharacters). */
module Text {

  predicate StartsWith(s: string, p: string) {
    |p| <= |s| && s[..|p|] == p
  }

  predicate EndsWith(s: string, p: string) {
    |p| <= |s| && s[|s| - |p|..] == p
  }

  lemma Assoc(a: string, b: string, c: string)
    ensures a + b + c == a + (b + c)
  {
  }

  lemma PrefixOf(p: string, tail: string)
    ensures StartsWith(p + tail, p)
  {
    assert (p + tail)[..|p|] == p;
  }

  /** `s.includes(p)`: p occurs somewhere in s. */
  predicate Contains(s: string, p: string)
    decreases |s|
  {
    StartsWith(s, p) || (|s| > 0 && Contains(s[1..], p))
  }

  /** Contains agrees with the existence of an index where p starts. */
  lemma {:induction false} ContainsIff(s: string, p: string)
    ensures Contains(s, p) <==> exists i :: 0 <= i <= |s| && StartsWith(s[i..], p)
    decreases |s|
  {
    assert s[0..] == s;
    if |s| > 0 {
      ContainsIff(s[1..], p);
      if Contains(s[1..], p) {
        var i :| 0 <= i <= |s[1..]| && StartsWith(s[1..][i..], p);
        assert s[1..][i..] == s[i + 1..];
      }
      forall i | 1 <= i <= |s| && StartsWith(s[i..], p)
        ensures Contains(s[1..], p)
      {
        assert s[1..][i - 1..] == s[i..];
      }
    }
  }

  /** How a prefix test splits over a first character. */
  lemma StartsWithCons(c: char, t: string, w: string)
    requires |w| > 0
    ensures StartsWith([c] + t, w) <==> c == w[0] && StartsWith(t, w[1..])
  {
    if StartsWith([c] + t, w) {
      assert ([c] + t)[..|w|][1..] == t[..|w| - 1];
    }
    if c == w[0] && StartsWith(t, w[1..]) {
      assert ([c] + t)[..|w|] == [c] + t[..|w| - 1];
    }
  }

  /** Replace every occurrence of p by r, scanning left to right and resuming after
      each replaced occurrence, as a global regular-expression replace does. */
  function ReplaceAll(s: string, p: string, r: string): string
    requires |p| > 0
    decreases |s|
  {
    if |s| == 0 then []
    else if StartsWith(s, p) then r + ReplaceAll(s[|p|..], p, r)
    else [s[0]] + ReplaceAll(s[1..], p, r)
  }

  /** a and b differ at some position both of them have. */
  predicate StartConflict(a: string, b: string)
    decreases |a|
  {
    |a| > 0 && |b| > 0 && (a[0] != b[0] || StartConflict(a[1..], b[1..]))
  }

  /** `a` cannot be laid over `b` starting at any position inside `b`. */
  predicate Unaligned(a: string, b: string)
    decreases |b|
  {
    |b| == 0 || (StartConflict(a, b) && Unaligned(a, b[1..]))
  }

  /** c occurs nowhere in s from position i on, checked character by character. */
  predicate LacksFrom(s: string, c: char, i: nat)
    decreases |s| - i
  {
    i >= |s| || (s[i] != c && LacksFrom(s, c, i + 1))
  }

  lemma {:induction false} LacksShift(a: string, b: string, c: char, j: nat)
    requires LacksFrom(b, c, j)
    ensures LacksFrom(a + b, c, |a| + j)
    decreases |b| - j
  {
    if j < |b| {
      LacksShift(a, b, c, j + 1);
    }
  }

  /** Lacking a character carries over to a concatenation. */
  lemma {:induction false} LacksConcat(a: string, b: string, c: char, i: nat)
    requires i <= |a| && LacksFrom(a, c, i) && LacksFrom(b, c, 0)
    ensures LacksFrom(a + b, c, i)
    decreases |a| - i
  {
    if i < |a| {
      LacksConcat(a, b, c, i + 1);
    } else {
      LacksShift(a, b, c, 0);
    }
  }

  /** Text without q's first character leaves q no place to start. */
  lemma {:induction false} UnalignedWithoutHead(q: string, x: string, i: nat)
    requires |q| > 0 && i <= |x| && LacksFrom(x, q[0], i)
    ensures Unaligned(q, x[i..])
    decreases |x| - i
  {
    if i < |x| {
      UnalignedWithoutHead(q, x, i + 1);
      assert x[i..][1..] == x[i + 1..];
    }
  }

  lemma {:induction false} ConflictBlocksPrefix(a: string, y: string, q: string)
    requires StartConflict(a, q)
    ensures !StartsWith(a + y, q)
    decreases |a|
  {
    assert a + y == [a[0]] + (a[1..] + y);
    StartsWithCons(a[0], a[1..] + y, q);
    if a[0] == q[0] {
      ConflictBlocksPrefix(a[1..], y, q[1..]);
    }
  }

  lemma {:induction false} UnalignedTail(a: string, b: string, j: nat)
    requires Unaligned(a, b) && j < |b|
    ensures StartConflict(a, b[j..])
    decreases j
  {
    if j > 0 {
      UnalignedTail(a, b[1..], j - 1);
      assert b[1..][j - 1..] == b[j..];
    }
  }

  /** Prepending text into which q cannot be laid creates no occurrence of q. */
  lemma {:induction false} PrependKeepsAbsent(x: string, y: string, q: string)
    requires Unaligned(q, x) && !Contains(y, q)
    ensures !Contains(x + y, q)
    decreases |x|
  {
    if |x| == 0 {
      assert x + y == y;
    } else {
      ConflictSymmetric(q, x);
      ConflictBlocksPrefix(x, y, q);
      PrependKeepsAbsent(x[1..], y, q);
      assert (x + y)[1..] == x[1..] + y;
    }
  }

  lemma {:induction false} ConflictSymmetric(a: string, b: string)
    requires StartConflict(a, b)
    ensures StartConflict(b, a)
    decreases |a|
  {
    if a[0] == b[0] {
      ConflictSymmetric(a[1..], b[1..]);
    }
  }

  /** If the output of a replacement starts with w, and r cannot be laid anywhere
      inside w, then the input already started with w. */
  lemma {:induction false} ReplaceAllPrefix(t: string, p: string, r: string, w: string)
    requires |p| > 0 && Unaligned(r, w)
    ensures StartsWith(ReplaceAll(t, p, r), w) ==> StartsWith(t, w)
    decreases |t|
  {
    if |w| > 0 && |t| > 0 {
      if StartsWith(t, p) {
        ConflictBlocksPrefix(r, ReplaceAll(t[|p|..], p, r), w);
      } else {
        assert t == [t[0]] + t[1..];
        StartsWithCons(t[0], ReplaceAll(t[1..], p, r), w);
        StartsWithCons(t[0], t[1..], w);
        ReplaceAllPrefix(t[1..], p, r, w[1..]);
      }
    }
  }

  /** After ReplaceAll(s, p, r) no p remains, provided p cannot be laid inside r and
      r cannot be laid inside the tail of p (so no new occurrence is formed at a seam). */
  lemma {:induction false} ReplaceAllRemoves(s: string, p: string, r: string)
    requires |p| > 0 && Unaligned(p, r) && Unaligned(r, p[1..])
    ensures !Contains(ReplaceAll(s, p, r), p)
    decreases |s|
  {
    if |s| == 0 {
    } else if StartsWith(s, p) {
      ReplaceAllRemoves(s[|p|..], p, r);
      PrependKeepsAbsent(r, ReplaceAll(s[|p|..], p, r), p);
    } else {
      var tail := ReplaceAll(s[1..], p, r);
      ReplaceAllRemoves(s[1..], p, r);
      assert s == [s[0]] + s[1..];
      assert ([s[0]] + tail)[1..] == tail;
      StartsWithCons(s[0], tail, p);
      StartsWithCons(s[0], s[1..], p);
      ReplaceAllPrefix(s[1..], p, r, p[1..]);
    }
  }

  /** A replacement whose text cannot overlap q in any alignment creates no q. */
  lemma {:induction false} ReplaceAllKeepsAbsent(s: string, p: string, r: string, q: string)
    requires |p| > 0 && |q| > 0 && Unaligned(q, r) && Unaligned(r, q) && !Contains(s, q)
    ensures !Contains(ReplaceAll(s, p, r), q)
    decreases |s|
  {
    if |s| == 0 {
    } else if StartsWith(s, p) {
      SuffixKeepsAbsent(s, |p|, q);
      ReplaceAllKeepsAbsent(s[|p|..], p, r, q);
      PrependKeepsAbsent(r, ReplaceAll(s[|p|..], p, r), q);
    } else {
      var tail := ReplaceAll(s[1..], p, r);
      ReplaceAllKeepsAbsent(s[1..], p, r, q);
      assert s == [s[0]] + s[1..];
      assert ([s[0]] + tail)[1..] == tail;
      StartsWithCons(s[0], tail, q);
      StartsWithCons(s[0], s[1..], q);
      UnalignedTail(r, q, 0);
      assert Unaligned(r, q[1..]);
      ReplaceAllPrefix(s[1..], p, r, q[1..]);
    }
  }

  lemma {:induction false} SuffixKeepsAbsent(s: string, k: nat, q: string)
    requires k <= |s| && !Contains(s, q)
    ensures !Contains(s[k..], q)
    decreases k
  {
    if k > 0 {
      SuffixKeepsAbsent(s[1..], k - 1, q);
      assert s[1..][k - 1..] == s[k..];
    }
  }

  /** Appending a character that q does not contain creates no occurrence of q. */
  lemma {:induction false} AppendKeepsAbsent(x: string, c: char, q: string)
    requires |q| > 0 && c !in q && !Contains(x, q)
    ensures !Contains(x + [c], q)
    decreases |x|
  {
    if |x| == 0 {
      assert [c][1..] == [];
      if |q| == 1 {
        assert q[0] in q;
      }
    } else {
      if |q| <= |x| {
        assert (x + [c])[..|q|] == x[..|q|];
      } else if |q| == |x| + 1 {
        assert q[|x|] in q;
        assert (x + [c])[|x|] == c;
      }
      assert (x + [c])[1..] == x[1..] + [c];
      AppendKeepsAbsent(x[1..], c, q);
    }
  }

  /** Without an occurrence of p, ReplaceAll changes nothing. */
  lemma {:induction false} ReplaceAllIdentity(s: string, p: string, r: string)
    requires |p| > 0 && !Contains(s, p)
    ensures ReplaceAll(s, p, r) == s
    decreases |s|
  {
    if |s| > 0 {
      ReplaceAllIdentity(s[1..], p, r);
      assert s == [s[0]] + s[1..];
    }
  }
}
