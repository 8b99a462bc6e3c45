/** Text building blocks shared by the file reader and the converter: joining
    lines or cells with a separator, splitting them again, and the prefix and
    case-insensitive comparisons of java.lang.String. */
module Strings {

  /** The line terminator the converter writes and the reader re-inserts. */
  const CRLF: string := "\r\n"

  predicate StartsWith(s: string, prefix: string) {
    |prefix| <= |s| && s[..|prefix|] == prefix
  }

  /** Upper-case ASCII letters to lower case; every other character unchanged. */
  function LowerAscii(c: char): char {
    if 'A' <= c <= 'Z' then (c as int + 32) as char else c
  }

  /** String.equalsIgnoreCase, restricted to ASCII case folding. */
  predicate EqualsIgnoreCase(a: string, b: string) {
    |a| == |b| && forall i :: 0 <= i < |a| ==> LowerAscii(a[i]) == LowerAscii(b[i])
  }

  /** Every part followed by `sep`: what appending part, then separator, in a
      loop leaves in a StringBuilder. */
  function Terminated(parts: seq<string>, sep: string): string
    decreases |parts|
  {
    if parts == [] then ""
    else Terminated(parts[..|parts| - 1], sep) + parts[|parts| - 1] + sep
  }

  /** The parts with `sep` between neighbours and none after the last. */
  function Join(parts: seq<string>, sep: string): string {
    if parts == [] then ""
    else Terminated(parts[..|parts| - 1], sep) + parts[|parts| - 1]
  }

  /** The first position at which `sep` occurs in `s`, or |s| when it does not. */
  function Find(s: string, sep: string): (k: nat)
    requires |sep| > 0
    ensures k <= |s|
    ensures k < |s| ==> k + |sep| <= |s| && s[k..k + |sep|] == sep
    decreases |s|
  {
    if |s| < |sep| then |s|
    else if s[..|sep|] == sep then 0
    else
      var k := Find(s[1..], sep);
      assert k < |s| - 1 ==> s[1..][k..k + |sep|] == s[k + 1..k + 1 + |sep|];
      1 + k
  }

  /** The pieces of `s` between occurrences of `sep`, left to right. */
  function Split(s: string, sep: string): (parts: seq<string>)
    requires |sep| > 0
    ensures |parts| > 0
    decreases |s|
  {
    var k := Find(s, sep);
    if k == |s| then [s] else [s[..k]] + Split(s[k + |sep|..], sep)
  }

  lemma {:induction false} TerminatedAppend(a: seq<string>, b: seq<string>, sep: string)
    ensures Terminated(a + b, sep) == Terminated(a, sep) + Terminated(b, sep)
    decreases |b|
  {
    if b == [] {
      assert a + b == a;
    } else {
      var n := |b| - 1;
      assert (a + b)[..|a + b| - 1] == a + b[..n];
      TerminatedAppend(a, b[..n], sep);
    }
  }

  /** A first part, its separator, then the rest terminated. */
  lemma TerminatedCons(p: string, rest: seq<string>, sep: string)
    ensures Terminated([p] + rest, sep) == p + sep + Terminated(rest, sep)
  {
    TerminatedAppend([p], rest, sep);
    assert [p][..0] == [];
  }

  /** Taking one more element of `b` after `a`. */
  lemma ExtendPrefix(a: seq<string>, b: seq<string>, k: nat)
    requires k < |b|
    ensures a + b[..k + 1] == (a + b[..k]) + [b[k]]
  {
    assert b[..k + 1] == b[..k] + [b[k]];
  }

  /** Four parts appended one at a time are the four appended at once. */
  lemma AppendFour(parts: seq<string>, w: string, x: string, y: string, z: string)
    ensures parts + [w] + [x] + [y] + [z] == parts + [w, x, y, z]
  {
    assert [w] + [x] + [y] + [z] == [w, x, y, z];
  }

  /** Five parts appended one at a time to nothing are those five. */
  lemma AppendFive(v: string, w: string, x: string, y: string, z: string)
    ensures [] + [v] + [w] + [x] + [y] + [z] == [v, w, x, y, z]
  {
    assert [v] + [w] + [x] + [y] + [z] == [v, w, x, y, z];
  }

  /** Appending one more part after two joined lists. */
  lemma AppendAfter(a: seq<string>, b: seq<string>, x: string)
    ensures a + (b + [x]) == (a + b) + [x]
  {
  }

  /** One more part, then the separator, extends a terminated text. */
  lemma TerminatedStep(parts: seq<string>, part: string, sep: string)
    ensures Terminated(parts + [part], sep) == Terminated(parts, sep) + part + sep
  {
    assert (parts + [part])[..|parts|] == parts;
  }

  /** One more part, without a separator, ends a joined text. */
  lemma JoinSnoc(parts: seq<string>, part: string, sep: string)
    ensures Join(parts + [part], sep) == Terminated(parts, sep) + part
  {
    assert (parts + [part])[..|parts|] == parts;
  }

  /** Appending one more part and separator to a terminated text. */
  lemma TerminatedSnoc(prefix: string, parts: seq<string>, part: string, sep: string)
    ensures prefix + Terminated(parts + [part], sep) == prefix + Terminated(parts, sep) + part + sep
  {
    assert (parts + [part])[..|parts|] == parts;
  }

  lemma JoinCons(p: string, rest: seq<string>, sep: string)
    requires rest != []
    ensures Join([p] + rest, sep) == p + sep + Join(rest, sep)
  {
    var n := |rest| - 1;
    var whole := [p] + rest;
    assert whole[..|whole| - 1] == [p] + rest[..n];
    assert whole[|whole| - 1] == rest[n];
    assert Terminated([p], sep) == p + sep by {
      assert [p][..0] == [];
    }
    TerminatedAppend([p], rest[..n], sep);
    assert Join(whole, sep) == Terminated([p] + rest[..n], sep) + rest[n];
    assert Join(rest, sep) == Terminated(rest[..n], sep) + rest[n];
  }

  /** A terminated sequence is the join of the parts and one empty part. */
  lemma TerminatedAsJoin(parts: seq<string>, sep: string)
    ensures Terminated(parts, sep) == Join(parts + [""], sep)
  {
    assert (parts + [""])[..|parts|] == parts;
  }

  lemma {:induction false} FindAbsent(p: string, sep: string)
    requires |sep| > 0 && sep[0] !in p
    ensures Find(p, sep) == |p|
    decreases |p|
  {
    if |p| >= |sep| {
      assert p[..|sep|][0] == p[0];
      assert sep[0] !in p[1..] by {
        forall i | 0 <= i < |p| - 1 ensures p[1..][i] != sep[0] {
          assert p[1..][i] == p[i + 1];
        }
      }
      FindAbsent(p[1..], sep);
    }
  }

  lemma {:induction false} FindAfter(p: string, sep: string, rest: string)
    requires |sep| > 0 && sep[0] !in p
    ensures Find(p + sep + rest, sep) == |p|
    decreases |p|
  {
    var s := p + sep + rest;
    if p == [] {
      assert s[..|sep|] == sep;
    } else {
      assert s[..|sep|][0] == p[0];
      assert s[1..] == p[1..] + sep + rest;
      assert sep[0] !in p[1..] by {
        forall i | 0 <= i < |p| - 1 ensures p[1..][i] != sep[0] {
          assert p[1..][i] == p[i + 1];
        }
      }
      FindAfter(p[1..], sep, rest);
    }
  }

  /** Splitting a joined text on its separator gives the parts back, provided
      no part contains the separator's first character. */
  lemma {:induction false} SplitJoin(parts: seq<string>, sep: string)
    requires |sep| > 0 && |parts| > 0
    requires forall i :: 0 <= i < |parts| ==> sep[0] !in parts[i]
    ensures Split(Join(parts, sep), sep) == parts
    decreases |parts|
  {
    if |parts| == 1 {
      assert parts[..0] == [];
      assert Join(parts, sep) == parts[0];
      FindAbsent(parts[0], sep);
      assert parts == [parts[0]];
    } else {
      var p, rest := parts[0], parts[1..];
      assert parts == [p] + rest;
      JoinCons(p, rest, sep);
      var s := Join(parts, sep);
      FindAfter(p, sep, Join(rest, sep));
      assert s[..|p|] == p;
      assert s[|p| + |sep|..] == Join(rest, sep);
      SplitJoin(rest, sep);
    }
  }

  /** Splitting a terminated text gives the parts and one trailing empty piece. */
  lemma SplitTerminated(parts: seq<string>, sep: string)
    requires |sep| > 0
    requires forall i :: 0 <= i < |parts| ==> sep[0] !in parts[i]
    ensures Split(Terminated(parts, sep), sep) == parts + [""]
  {
    TerminatedAsJoin(parts, sep);
    SplitJoin(parts + [""], sep);
  }
}
