/**
 * Python's `str.split(',')` and its inverse `','.join(...)` on strings: the
 * comma is the only separator, no whitespace is trimmed, and empty fields
 * (from leading, trailing or doubled commas) are kept.
 */
module Tokens {

  const Comma: char := ','

  /** Index of the first comma of s. */
  function FirstComma(s: string): (i: nat)
    requires Comma in s
    ensures i < |s| && s[i] == Comma && Comma !in s[..i]
  {
    if s[0] == Comma then 0
    else
      assert Comma in s[1..] by {
        var k :| 0 <= k < |s| && s[k] == Comma;
        assert s[1..][k - 1] == Comma;
      }
      var i := FirstComma(s[1..]);
      assert s[..i + 1] == [s[0]] + s[1..][..i];
      i + 1
  }

  /** `s.split(',')`: the fields between commas, never an empty list. */
  function Split(s: string): (fields: seq<string>)
    ensures |fields| >= 1
    ensures forall k :: 0 <= k < |fields| ==> Comma !in fields[k]
    decreases |s|
  {
    if Comma in s then
      var i := FirstComma(s);
      [s[..i]] + Split(s[i + 1..])
    else
      [s]
  }

  /** `','.join(fields)`. */
  function Join(fields: seq<string>): string
    requires |fields| >= 1
  {
    if |fields| == 1 then fields[0] else fields[0] + [Comma] + Join(fields[1..])
  }

  /** Joining a field in front of a list puts a comma between it and the rest. */
  lemma JoinCons(f: string, fields: seq<string>)
    requires |fields| >= 1
    ensures Join([f] + fields) == f + [Comma] + Join(fields)
  {
    assert ([f] + fields)[1..] == fields;
  }

  /** Splitting at the first comma: the first field is everything before it. */
  lemma SplitCons(f: string, rest: string)
    requires Comma !in f
    ensures Split(f + [Comma] + rest) == [f] + Split(rest)
  {
    var s := f + [Comma] + rest;
    assert s[|f|] == Comma;
    var i := FirstComma(s);
    assert s[..|f|] == f;
    assert i == |f|;
    assert s[..i] == f && s[i + 1..] == rest;
  }

  /** Joining the fields of a split gives back the string. */
  lemma {:induction false} JoinSplit(s: string)
    ensures Join(Split(s)) == s
    decreases |s|
  {
    if Comma in s {
      var i := FirstComma(s);
      var f, rest := s[..i], s[i + 1..];
      assert s == f + [Comma] + rest;
      SplitCons(f, rest);
      JoinSplit(rest);
      JoinCons(f, Split(rest));
    }
  }

  /** Splitting a join of comma-free fields gives back the fields. */
  lemma {:induction false} SplitJoin(fields: seq<string>)
    requires |fields| >= 1
    requires forall k :: 0 <= k < |fields| ==> Comma !in fields[k]
    ensures Split(Join(fields)) == fields
  {
    if |fields| > 1 {
      var f, rest := fields[0], fields[1..];
      assert Join(fields) == f + [Comma] + Join(rest);
      SplitCons(f, Join(rest));
      SplitJoin(rest);
      assert fields == [f] + rest;
    }
  }

  /**
   * `t` occurs in `s` as a whole field: at the start of `s` or right after a
   * comma, and ending at the end of `s` or right before a comma.
   */
  predicate FieldAt(t: string, s: string, i: int) {
    0 <= i && i + |t| <= |s| && s[i..i + |t|] == t
    && (i == 0 || s[i - 1] == Comma)
    && (i + |t| == |s| || s[i + |t|] == Comma)
  }

  predicate IsField(t: string, s: string) {
    exists i :: 0 <= i <= |s| && FieldAt(t, s, i)
  }

  /** A field of the text after a comma is a field of the whole text, shifted past that comma. */
  lemma FieldAfterComma(t: string, s: string, k: nat, j: int)
    requires k < |s| && s[k] == Comma && 0 <= j
    ensures FieldAt(t, s[k + 1..], j) <==> FieldAt(t, s, j + k + 1)
  {
    var rest := s[k + 1..];
    if 0 <= j && j + |t| <= |rest| {
      assert s[j + k + 1..j + k + 1 + |t|] == rest[j..j + |t|];
    }
  }

  /** A comma-free field that starts before the first comma is everything before it. */
  lemma FieldBeforeFirstComma(t: string, s: string, k: nat, i: int)
    requires Comma !in t
    requires k < |s| && s[k] == Comma && Comma !in s[..k]
    requires FieldAt(t, s, i) && i <= k
    ensures t == s[..k]
  {
  }

  /** The comma-free fields of a text: the part before its first comma, and the fields after that comma. */
  lemma IsFieldStep(t: string, s: string, k: nat)
    requires Comma !in t
    requires k < |s| && s[k] == Comma && Comma !in s[..k]
    ensures IsField(t, s) <==> t == s[..k] || IsField(t, s[k + 1..])
  {
    var rest := s[k + 1..];
    if IsField(t, s) {
      var i :| 0 <= i <= |s| && FieldAt(t, s, i);
      if i <= k {
        FieldBeforeFirstComma(t, s, k, i);
      } else {
        FieldAfterComma(t, s, k, i - k - 1);
        assert 0 <= i - k - 1 <= |rest| && FieldAt(t, rest, i - k - 1);
      }
    }
    if t == s[..k] {
      assert FieldAt(t, s, 0);
    }
    if IsField(t, rest) {
      var j :| 0 <= j <= |rest| && FieldAt(t, rest, j);
      FieldAfterComma(t, s, k, j);
      assert 0 <= j + k + 1 <= |s| && FieldAt(t, s, j + k + 1);
    }
  }

  /** In a text without commas, the only field is the text itself. */
  lemma IsFieldWithoutComma(t: string, s: string)
    requires Comma !in s
    ensures IsField(t, s) <==> t == s
  {
    if IsField(t, s) {
      var i :| 0 <= i <= |s| && FieldAt(t, s, i);
    }
    if t == s {
      assert FieldAt(t, s, 0);
    }
  }

  /**
   * A comma-free token is among the fields of `s.split(',')` exactly when it
   * stands in `s` between separators: membership is an exact, untrimmed
   * match of a whole field.
   */
  lemma {:induction false} InSplitIff(t: string, s: string)
    requires Comma !in t
    ensures t in Split(s) <==> IsField(t, s)
    decreases |s|
  {
    if Comma in s {
      var k := FirstComma(s);
      var f, rest := s[..k], s[k + 1..];
      assert s == f + [Comma] + rest;
      SplitCons(f, rest);
      InSplitIff(t, rest);
      IsFieldStep(t, s, k);
    } else {
      IsFieldWithoutComma(t, s);
    }
  }
}
