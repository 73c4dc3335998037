/**
 * Byte strings as the middleware handles response bodies: UTF-8 encoding of
 * text, the containment test `pat in s`, and Python's `bytes.replace`
 * together with the split/join reading of it.
 */
module Bytes {

  newtype byte = x: int | 0 <= x < 256

  /** The UTF-8 encoding of one Unicode scalar value. */
  function Utf8Char(c: char): (r: seq<byte>)
    ensures 1 <= |r| <= 4
    ensures (c as int < 0x80) <==> |r| == 1
  {
    var n := c as int;
    if n < 0x80 then [n as byte]
    else if n < 0x800 then [(0xC0 + n / 0x40) as byte, (0x80 + n % 0x40) as byte]
    else if n < 0x1_0000 then
      [(0xE0 + n / 0x1000) as byte, (0x80 + n / 0x40 % 0x40) as byte, (0x80 + n % 0x40) as byte]
    else
      [(0xF0 + n / 0x4_0000) as byte, (0x80 + n / 0x1000 % 0x40) as byte,
       (0x80 + n / 0x40 % 0x40) as byte, (0x80 + n % 0x40) as byte]
  }

  /** `s.encode('utf-8')`. */
  function Utf8(s: string): (r: seq<byte>)
    ensures |r| >= |s|
  {
    if s == [] then [] else Utf8Char(s[0]) + Utf8(s[1..])
  }

  /** `pat` occurs in `s` starting at index `i`. */
  predicate OccursAt(s: seq<byte>, pat: seq<byte>, i: nat) {
    i + |pat| <= |s| && s[i..i + |pat|] == pat
  }

  /** `pat in s` on bytes: `pat` occurs somewhere in `s`. */
  predicate Contains(s: seq<byte>, pat: seq<byte>) {
    exists i: nat :: i <= |s| && OccursAt(s, pat, i)
  }

  /** `s.replace(pat, rep)`: every occurrence of `pat`, scanning from the left
      and never overlapping, replaced by `rep`. */
  function ReplaceAll(s: seq<byte>, pat: seq<byte>, rep: seq<byte>): (r: seq<byte>)
    requires pat != []
    ensures |s| < |pat| ==> r == s
    ensures pat <= s ==> rep <= r
    decreases |s|
  {
    if |s| < |pat| then s
    else if s[..|pat|] == pat then rep + ReplaceAll(s[|pat|..], pat, rep)
    else [s[0]] + ReplaceAll(s[1..], pat, rep)
  }

  /** `s.split(pat)`: the pieces between the occurrences ReplaceAll finds. */
  function Split(s: seq<byte>, pat: seq<byte>): (r: seq<seq<byte>>)
    requires pat != []
    ensures |r| >= 1
    ensures r[0] <= s
    decreases |s|
  {
    if |s| < |pat| then [s]
    else if s[..|pat|] == pat then [[]] + Split(s[|pat|..], pat)
    else
      var rest := Split(s[1..], pat);
      [[s[0]] + rest[0]] + rest[1..]
  }

  /** `sep.join(pieces)`. */
  function Join(pieces: seq<seq<byte>>, sep: seq<byte>): seq<byte>
    requires |pieces| >= 1
    decreases |pieces|
  {
    if |pieces| == 1 then pieces[0] else pieces[0] + sep + Join(pieces[1..], sep)
  }

  lemma JoinConsFirst(b: byte, pieces: seq<seq<byte>>, sep: seq<byte>)
    requires |pieces| >= 1
    ensures Join([[b] + pieces[0]] + pieces[1..], sep) == [b] + Join(pieces, sep)
  {
    var ps := [[b] + pieces[0]] + pieces[1..];
    if |pieces| > 1 {
      assert ps[1..] == pieces[1..];
    }
  }

  /** `s.replace(pat, rep) == rep.join(s.split(pat))`. */
  lemma {:induction false} ReplaceAllIsJoinOfSplit(s: seq<byte>, pat: seq<byte>, rep: seq<byte>)
    requires pat != []
    ensures ReplaceAll(s, pat, rep) == Join(Split(s, pat), rep)
    decreases |s|
  {
    if |s| < |pat| {
    } else if s[..|pat|] == pat {
      var rest := Split(s[|pat|..], pat);
      ReplaceAllIsJoinOfSplit(s[|pat|..], pat, rep);
      var ps := [[]] + rest;
      assert ps[1..] == rest;
      calc {
        Join(Split(s, pat), rep);
        Join(ps, rep);
        ps[0] + rep + Join(rest, rep);
        { assert ps[0] == []; }
        rep + Join(rest, rep);
        ReplaceAll(s, pat, rep);
      }
    } else {
      var rest := Split(s[1..], pat);
      ReplaceAllIsJoinOfSplit(s[1..], pat, rep);
      JoinConsFirst(s[0], rest, rep);
      calc {
        Join(Split(s, pat), rep);
        Join([[s[0]] + rest[0]] + rest[1..], rep);
        [s[0]] + Join(rest, rep);
        ReplaceAll(s, pat, rep);
      }
    }
  }

  /** Joining the pieces back with the pattern gives the original: the
      pieces are all of `s` except the occurrences of `pat`. */
  lemma {:induction false} SplitJoinRoundTrip(s: seq<byte>, pat: seq<byte>)
    requires pat != []
    ensures Join(Split(s, pat), pat) == s
    decreases |s|
  {
    if |s| < |pat| {
    } else if s[..|pat|] == pat {
      var rest := Split(s[|pat|..], pat);
      SplitJoinRoundTrip(s[|pat|..], pat);
      var ps := [[]] + rest;
      assert ps[1..] == rest;
      calc {
        Join(Split(s, pat), pat);
        Join(ps, pat);
        ps[0] + pat + Join(rest, pat);
        { assert ps[0] == []; }
        pat + s[|pat|..];
        s;
      }
    } else {
      var rest := Split(s[1..], pat);
      SplitJoinRoundTrip(s[1..], pat);
      JoinConsFirst(s[0], rest, pat);
      calc {
        Join(Split(s, pat), pat);
        Join([[s[0]] + rest[0]] + rest[1..], pat);
        [s[0]] + Join(rest, pat);
        [s[0]] + s[1..];
        s;
      }
    }
  }

  /** No piece of the split contains the pattern: `split` cuts at every
      occurrence. */
  lemma {:induction false} SplitPiecesFree(s: seq<byte>, pat: seq<byte>)
    requires pat != []
    ensures forall k :: 0 <= k < |Split(s, pat)| ==> !Contains(Split(s, pat)[k], pat)
    decreases |s|
  {
    var r := Split(s, pat);
    if |s| < |pat| {
      assert r == [s];
    } else if s[..|pat|] == pat {
      var rest := Split(s[|pat|..], pat);
      SplitPiecesFree(s[|pat|..], pat);
      assert r == [[]] + rest;
      forall k | 0 <= k < |r| ensures !Contains(r[k], pat) {
        if k > 0 { assert r[k] == rest[k - 1]; }
      }
    } else {
      var rest := Split(s[1..], pat);
      SplitPiecesFree(s[1..], pat);
      var first := [s[0]] + rest[0];
      assert r == [first] + rest[1..];
      assert !OccursAt(first, pat, 0) by {
        assert first <= s;
        if |pat| <= |first| {
          assert first[..|pat|] == s[..|pat|];
        }
      }
      forall i: nat | 1 <= i <= |first| ensures !OccursAt(first, pat, i) {
        if i + |pat| <= |first| {
          assert first[i..i + |pat|] == rest[0][i - 1..i - 1 + |pat|];
          assert !OccursAt(rest[0], pat, i - 1);
        }
      }
      forall k | 0 <= k < |r| ensures !Contains(r[k], pat) {
        if k > 0 { assert r[k] == rest[k]; }
      }
    }
  }

  /** Without an occurrence of the pattern, `replace` changes nothing. */
  lemma {:induction false} ReplaceAllAbsent(s: seq<byte>, pat: seq<byte>, rep: seq<byte>)
    requires pat != [] && !Contains(s, pat)
    ensures ReplaceAll(s, pat, rep) == s
    decreases |s|
  {
    if |s| >= |pat| {
      assert !OccursAt(s, pat, 0);
      assert !Contains(s[1..], pat) by {
        forall i: nat | i <= |s[1..]| && OccursAt(s[1..], pat, i) ensures false {
          assert s[1..][i..i + |pat|] == s[i + 1..i + 1 + |pat|];
          assert OccursAt(s, pat, i + 1);
        }
      }
      ReplaceAllAbsent(s[1..], pat, rep);
    }
  }
}
