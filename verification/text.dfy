/** Rendering of segment lists: joining with a separator and splitting back. */
module Text {

  /** Ruby's `Array#join(sep)`. */
  function Join(parts: seq<string>, sep: string): (r: string)
    ensures |parts| == 0 ==> r == ""
    ensures |parts| == 1 ==> r == parts[0]
  {
    if |parts| == 0 then ""
    else if |parts| == 1 then parts[0]
    else parts[0] + sep + Join(parts[1..], sep)
  }

  /** Splits at every occurrence of c, keeping empty fields (`"a..b"` gives
      `["a", "", "b"]`). On strings whose fields are all non-empty this is
      what Ruby's `String#split` returns. */
  function Split(s: string, c: char): (r: seq<string>)
    ensures |r| > 0
  {
    if |s| == 0 then [""]
    else
      var rest := Split(s[1..], c);
      if s[0] == c then [""] + rest else [[s[0]] + rest[0]] + rest[1..]
  }

  /** A string without the separator is a single field. */
  lemma {:induction false} SplitWhole(a: string, c: char)
    requires c !in a
    ensures Split(a, c) == [a]
  {
    if |a| > 0 {
      assert c !in a[1..] by {
        forall i | 0 <= i < |a[1..]| ensures a[1..][i] != c {
          assert a[1..][i] == a[i + 1];
        }
      }
      SplitWhole(a[1..], c);
      assert [a[0]] + a[1..] == a;
    }
  }

  /** The first field of `a + c + rest` is a, the others are those of rest. */
  lemma {:induction false} SplitField(a: string, c: char, rest: string)
    requires c !in a
    ensures Split(a + [c] + rest, c) == [a] + Split(rest, c)
  {
    var s := a + [c] + rest;
    if |a| == 0 {
      assert s == [c] + rest;
      assert s[1..] == rest;
    } else {
      assert s[1..] == a[1..] + [c] + rest;
      assert c !in a[1..] by {
        forall i | 0 <= i < |a[1..]| ensures a[1..][i] != c {
          assert a[1..][i] == a[i + 1];
        }
      }
      SplitField(a[1..], c, rest);
      assert [a[0]] + a[1..] == a;
    }
  }

  /** Joining separator-free parts and splitting the result gives the parts back. */
  lemma {:induction false} SplitJoin(parts: seq<string>, c: char)
    requires |parts| > 0
    requires forall i :: 0 <= i < |parts| ==> c !in parts[i]
    ensures Split(Join(parts, [c]), c) == parts
    decreases |parts|
  {
    if |parts| == 1 {
      SplitWhole(parts[0], c);
    } else {
      var tail := parts[1..];
      assert forall i :: 0 <= i < |tail| ==> tail[i] == parts[i + 1];
      SplitJoin(tail, c);
      SplitField(parts[0], c, Join(tail, [c]));
      assert parts == [parts[0]] + tail;
    }
  }

  /** The fields of a join by `c + pad`, split at c alone: every part after
      the first keeps the padding in front. */
  function Padded(parts: seq<string>, pad: string): (r: seq<string>)
    ensures |r| == |parts|
  {
    seq(|parts|, i requires 0 <= i < |parts| => if i == 0 then parts[0] else pad + parts[i])
  }

  /** A separator-free prefix joins the first field. */
  lemma {:induction false} SplitPrefix(pad: string, s: string, c: char)
    requires c !in pad
    ensures Split(pad + s, c) == [pad + Split(s, c)[0]] + Split(s, c)[1..]
    decreases |pad|
  {
    if |pad| > 0 {
      assert (pad + s)[0] == pad[0];
      assert (pad + s)[1..] == pad[1..] + s;
      assert c !in pad[1..] by {
        forall i | 0 <= i < |pad[1..]| ensures pad[1..][i] != c {
          assert pad[1..][i] == pad[i + 1];
        }
      }
      SplitPrefix(pad[1..], s, c);
      assert [pad[0]] + (pad[1..] + Split(s, c)[0]) == pad + Split(s, c)[0];
    } else {
      assert pad + s == s;
      assert pad + Split(s, c)[0] == Split(s, c)[0];
      assert Split(s, c) == [Split(s, c)[0]] + Split(s, c)[1..];
    }
  }

  /** Joining separator-free parts by `c + pad` and splitting at c gives the
      parts back, each after the first with the padding in front. */
  lemma {:induction false} SplitJoinPadded(parts: seq<string>, c: char, pad: string)
    requires |parts| > 0 && c !in pad
    requires forall i :: 0 <= i < |parts| ==> c !in parts[i]
    ensures Split(Join(parts, [c] + pad), c) == Padded(parts, pad)
    decreases |parts|
  {
    if |parts| == 1 {
      SplitWhole(parts[0], c);
    } else {
      var tail := parts[1..];
      assert forall i :: 0 <= i < |tail| ==> tail[i] == parts[i + 1];
      var rest := Join(tail, [c] + pad);
      SplitJoinPadded(tail, c, pad);
      assert parts[0] + ([c] + pad) + rest == parts[0] + [c] + (pad + rest);
      SplitField(parts[0], c, pad + rest);
      SplitPrefix(pad, rest, c);
      var fields := Split(Join(parts, [c] + pad), c);
      forall i | 0 <= i < |parts|
        ensures fields[i] == Padded(parts, pad)[i]
      {
        if i > 1 {
          assert fields[i] == Split(rest, c)[i - 1] == Padded(tail, pad)[i - 1];
        }
      }
    }
  }
}
