/** The two string operations of the host runtime that the lyrics code relies on:
    `String.prototype.split` with a one-character separator and
    `String.prototype.substring(1)`. */
module Strings {

  /** Index of the first occurrence of `c` in `s` (what `indexOf` returns when `c` occurs). */
  function FirstIndex(s: string, c: char): (k: nat)
    requires c in s
    ensures k < |s| && s[k] == c
    ensures c !in s[..k]
  {
    if s[0] == c then 0
    else
      assert s == [s[0]] + s[1..];
      var k' := FirstIndex(s[1..], c);
      assert s[..k' + 1] == [s[0]] + s[1..][..k'];
      k' + 1
  }

  /** Glues the parts back together with `c` between neighbours (`Array.prototype.join`). */
  function Join(parts: seq<string>, c: char): string
    requires |parts| >= 1
  {
    if |parts| == 1 then parts[0] else parts[0] + [c] + Join(parts[1..], c)
  }

  /** `s.split(c)`: the maximal runs of `s` that do not contain `c`, in order.
      There is always at least one part, one more than there are separators. */
  function Split(s: string, c: char): (parts: seq<string>)
    ensures |parts| == multiset(s)[c] + 1
    decreases |s|
  {
    if c in s then
      var k := FirstIndex(s, c);
      assert s == s[..k] + [c] + s[k + 1..];
      [s[..k]] + Split(s[k + 1..], c)
    else
      [s]
  }

  /** No part of `s.split(c)` contains `c`. */
  lemma {:induction false} SplitNoSeparator(s: string, c: char)
    ensures forall i :: 0 <= i < |Split(s, c)| ==> c !in Split(s, c)[i]
    decreases |s|
  {
    if c in s {
      var k := FirstIndex(s, c);
      var rest := Split(s[k + 1..], c);
      SplitNoSeparator(s[k + 1..], c);
      var parts := [s[..k]] + rest;
      assert Split(s, c) == parts;
      forall i | 0 <= i < |parts|
        ensures c !in parts[i]
      {
        if i > 0 {
          assert parts[i] == rest[i - 1];
        }
      }
    }
  }

  /** Joining the parts of `s.split(c)` with `c` gives `s` back. */
  lemma {:induction false} SplitJoinBack(s: string, c: char)
    ensures Join(Split(s, c), c) == s
    decreases |s|
  {
    if c in s {
      var k := FirstIndex(s, c);
      var rest := Split(s[k + 1..], c);
      SplitJoinBack(s[k + 1..], c);
      var parts := [s[..k]] + rest;
      assert Split(s, c) == parts;
      assert |parts| >= 2 && parts[0] == s[..k] && parts[1..] == rest;
      assert Join(parts, c) == s[..k] + [c] + s[k + 1..];
      assert s[..k + 1] == s[..k] + [c];
      assert s == s[..k + 1] + s[k + 1..];
    }
  }

  /** `s.substring(1)`: drops the first character; the empty string stays empty. */
  function DropFirst(s: string): string
  {
    if |s| == 0 then s else s[1..]
  }

  /** Putting the dropped character back in front restores a non-empty string. */
  lemma DropFirstRestore(s: string)
    ensures |s| > 0 ==> [s[0]] + DropFirst(s) == s
    ensures |s| == 0 ==> DropFirst(s) == ""
  {
  }

  /** The first separator of `p + [c] + t`, when `p` has none, is the one after `p`,
      so splitting peels `p` off as the first part. */
  lemma {:induction false} SplitAfterFirst(p: string, c: char, t: string)
    requires c !in p
    ensures Split(p + [c] + t, c) == [p] + Split(t, c)
  {
    var s := p + [c] + t;
    assert s[|p|] == c;
    var k := FirstIndex(s, c);
    assert k == |p|;
    assert s[..k] == p;
    assert s[k + 1..] == t;
  }

  /** Split is the only way to cut a string into separator-free parts that join back to it. */
  lemma {:induction false} SplitJoin(parts: seq<string>, c: char)
    requires |parts| >= 1
    requires forall i :: 0 <= i < |parts| ==> c !in parts[i]
    ensures Split(Join(parts, c), c) == parts
    decreases |parts|
  {
    if |parts| == 1 {
      assert c !in parts[0];
    } else {
      var rest := parts[1..];
      assert forall i :: 0 <= i < |rest| ==> c !in rest[i] by {
        forall i | 0 <= i < |rest| ensures c !in rest[i] {
          assert rest[i] == parts[i + 1];
        }
      }
      assert c !in parts[0];
      SplitAfterFirst(parts[0], c, Join(rest, c));
      SplitJoin(rest, c);
      assert parts == [parts[0]] + rest;
    }
  }

  /** Joining one more part adds one separator and that part at the end. */
  lemma {:induction false} JoinAppend(parts: seq<string>, q: string, c: char)
    requires |parts| >= 1
    ensures Join(parts + [q], c) == Join(parts, c) + [c] + q
    decreases |parts|
  {
    if |parts| == 1 {
      assert (parts + [q])[1..] == [q];
    } else {
      assert (parts + [q])[1..] == parts[1..] + [q];
      JoinAppend(parts[1..], q, c);
    }
  }

  /** A string that ends with the separator splits into one extra, empty, last part. */
  lemma {:induction false} SplitTrailingSeparator(s: string, c: char)
    ensures Split(s + [c], c) == Split(s, c) + [""]
  {
    var parts := Split(s, c);
    SplitNoSeparator(s, c);
    SplitJoinBack(s, c);
    JoinAppend(parts, "", c);
    assert s + [c] + "" == s + [c];
    var more := parts + [""];
    assert forall i :: 0 <= i < |more| ==> c !in more[i] by {
      forall i | 0 <= i < |more| ensures c !in more[i] {
        if i < |parts| { assert more[i] == parts[i]; }
      }
    }
    SplitJoin(more, c);
  }
}
