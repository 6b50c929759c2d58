/** Python's Option-like `None` results. */
module Wrappers {
  datatype Option<+T> = None | Some(value: T)
}

/**
 String joining (Python's sep.join) with its inverse, splitting, and a
 predicate saying that several strings occur in a text one after another.
 */
module Text {

  /** sep.join(parts): the parts with sep between each neighbouring pair. */
  function Join(parts: seq<string>, sep: string): string
  {
    if |parts| == 0 then []
    else if |parts| == 1 then parts[0]
    else parts[0] + sep + Join(parts[1..], sep)
  }

  /**
   s.split(sep), with `field` the part of the current field already read:
   the text is cut at every leftmost non-overlapping occurrence of sep.
   */
  function SplitFrom(s: string, sep: string, field: string): (r: seq<string>)
    requires |sep| > 0
    ensures |r| >= 1
    decreases |s|
  {
    if |s| == 0 then [field]
    else if sep <= s then [field] + SplitFrom(s[|sep|..], sep, [])
    else SplitFrom(s[1..], sep, field + [s[0]])
  }

  function Split(s: string, sep: string): seq<string>
    requires |sep| > 0
  {
    SplitFrom(s, sep, [])
  }

  /** A text without the first character of sep is read as one field. */
  lemma {:induction false} SplitWithoutSep(p: string, sep: string, field: string)
    requires |sep| > 0 && sep[0] !in p
    ensures SplitFrom(p, sep, field) == [field + p]
    decreases |p|
  {
    if |p| > 0 {
      assert !(sep <= p);
      SplitWithoutSep(p[1..], sep, field + [p[0]]);
      assert field + [p[0]] + p[1..] == field + p;
    } else {
      assert field + p == field;
    }
  }

  /** A field without the first character of sep ends at the sep that follows it. */
  lemma {:induction false} SplitPastField(p: string, sep: string, rest: string, field: string)
    requires |sep| > 0 && sep[0] !in p
    ensures SplitFrom(p + sep + rest, sep, field) == [field + p] + SplitFrom(rest, sep, [])
    decreases |p|
  {
    var s := p + sep + rest;
    if |p| == 0 {
      assert s == sep + rest;
      assert sep <= s;
      assert s[|sep|..] == rest;
      assert field + p == field;
    } else {
      assert s[0] == p[0] != sep[0];
      assert !(sep <= s);
      assert s[1..] == p[1..] + sep + rest;
      SplitPastField(p[1..], sep, rest, field + [p[0]]);
      assert field + [p[0]] + p[1..] == field + p;
    }
  }

  /**
   Splitting undoes joining when no part holds the first character of the
   separator: the parts come back, each once and in their order.
   */
  lemma {:induction false} SplitJoin(parts: seq<string>, sep: string)
    requires |parts| > 0 && |sep| > 0
    requires forall i :: 0 <= i < |parts| ==> sep[0] !in parts[i]
    ensures Split(Join(parts, sep), sep) == parts
  {
    if |parts| == 1 {
      SplitWithoutSep(parts[0], sep, []);
      assert [] + parts[0] == parts[0];
    } else {
      SplitPastField(parts[0], sep, Join(parts[1..], sep), []);
      assert [] + parts[0] == parts[0];
      SplitJoin(parts[1..], sep);
      assert parts == [parts[0]] + parts[1..];
    }
  }

  /** p occurs in s starting at index i. */
  predicate OccursAt(s: string, p: string, i: int)
  {
    0 <= i && i + |p| <= |s| && s[i..i + |p|] == p
  }

  /** The parts occur in s one after another, without overlapping. */
  ghost predicate ContainsInOrder(s: string, parts: seq<string>)
    decreases |parts|
  {
    |parts| == 0 ||
    exists i :: OccursAt(s, parts[0], i) && ContainsInOrder(s[i + |parts[0]|..], parts[1..])
  }

  /** Putting text before p and after the later parts keeps the parts in order. */
  lemma InOrderCons(pre: string, post: string, parts: seq<string>)
    requires |parts| > 0 && ContainsInOrder(post, parts[1..])
    ensures ContainsInOrder(pre + parts[0] + post, parts)
  {
    var s := pre + parts[0] + post;
    assert s[|pre|..|pre| + |parts[0]|] == parts[0];
    assert s[|pre| + |parts[0]|..] == post;
    assert OccursAt(s, parts[0], |pre|);
  }

  /**
   An f-string: the fixed pieces of text with one interpolated value between
   each neighbouring pair, chunks[0] + values[0] + chunks[1] + ... + chunks[n].
   */
  function Interpolate(chunks: seq<string>, values: seq<string>): (r: string)
    requires |chunks| == |values| + 1
    ensures chunks[0] <= r
  {
    if |values| == 0 then chunks[0]
    else chunks[0] + values[0] + Interpolate(chunks[1..], values[1..])
  }

  /** Every interpolated value appears in the result, in the order given. */
  lemma {:induction false} InterpolateInOrder(chunks: seq<string>, values: seq<string>)
    requires |chunks| == |values| + 1
    ensures ContainsInOrder(Interpolate(chunks, values), values)
  {
    if |values| > 0 {
      InterpolateInOrder(chunks[1..], values[1..]);
      InOrderCons(chunks[0], Interpolate(chunks[1..], values[1..]), values);
    }
  }

  /** An f-string with four values, written out. */
  lemma InterpolateFour(c0: string, c1: string, c2: string, c3: string, c4: string,
                        v0: string, v1: string, v2: string, v3: string)
    ensures Interpolate([c0, c1, c2, c3, c4], [v0, v1, v2, v3])
         == c0 + v0 + c1 + v1 + c2 + v2 + c3 + v3 + c4
  {
    var t4 := Interpolate([c4], []);
    var t3 := Interpolate([c3, c4], [v3]);
    var t2 := Interpolate([c2, c3, c4], [v2, v3]);
    var t1 := Interpolate([c1, c2, c3, c4], [v1, v2, v3]);
    assert t4 == c4;
    assert [c3, c4][1..] == [c4] && [v3][1..] == [];
    assert t3 == c3 + v3 + c4;
    assert [c2, c3, c4][1..] == [c3, c4] && [v2, v3][1..] == [v3];
    assert t2 == c2 + v2 + t3;
    assert [c1, c2, c3, c4][1..] == [c2, c3, c4] && [v1, v2, v3][1..] == [v2, v3];
    assert t1 == c1 + v1 + t2;
    assert [c0, c1, c2, c3, c4][1..] == [c1, c2, c3, c4] && [v0, v1, v2, v3][1..] == [v1, v2, v3];
  }

  /** An f-string with a single value. */
  lemma InterpolateOne(before: string, value: string, after: string)
    ensures Interpolate([before, after], [value]) == before + value + after
  {
    assert [before, after][1..] == [after];
    assert [value][1..] == [];
  }
}
