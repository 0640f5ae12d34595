/**
 * Fragment sequences: the one representation both builders share.
 *
 * A builder holds an ordered list of string fragments; rendering a builder
 * concatenates its fragments in order with no separator (`sb.join("")` in the
 * TypeScript sources, `"".join(sb)` in the Python port).
 */
module Fragments {

  /** The in-order concatenation of the fragments of `sb`. */
  function Join(sb: seq<string>): (r: string)
    ensures |sb| == 1 ==> r == sb[0]
  {
    if |sb| == 0 then "" else Join(sb[..|sb| - 1]) + sb[|sb| - 1]
  }

  /** The rendering is blank exactly when every fragment is. */
  lemma {:induction false} JoinBlank(sb: seq<string>)
    ensures Join(sb) == "" <==> forall i :: 0 <= i < |sb| ==> sb[i] == ""
  {
    if |sb| != 0 {
      var n := |sb| - 1;
      JoinBlank(sb[..n]);
      assert forall i :: 0 <= i < n ==> sb[..n][i] == sb[i];
    }
  }

  /** A non-empty prefix is the prefix one shorter followed by its last element. */
  lemma PrefixSnoc<T>(s: seq<T>, k: nat)
    requires 0 < k <= |s|
    ensures s[..k] == s[..k - 1] + [s[k - 1]]
  {
  }

  /** Concatenation regroups freely. */
  lemma ConcatAssoc(x: string, y: string, z: string)
    ensures x + y + z == x + (y + z)
  {
  }

  /** Appending one fragment appends its text to the rendering. */
  lemma JoinSnoc(sb: seq<string>, f: string)
    ensures Join(sb + [f]) == Join(sb) + f
  {
    assert (sb + [f])[..|sb|] == sb;
  }

  /** Rendering is a homomorphism from fragment sequences to strings. */
  lemma {:induction false} JoinConcat(a: seq<string>, b: seq<string>)
    ensures Join(a + b) == Join(a) + Join(b)
  {
    if |b| == 0 {
      assert a + b == a;
    } else {
      var b' := b[..|b| - 1];
      assert a + b == (a + b') + [b[|b| - 1]];
      assert b == b' + [b[|b| - 1]];
      JoinSnoc(a + b', b[|b| - 1]);
      JoinSnoc(b', b[|b| - 1]);
      JoinConcat(a, b');
    }
  }

  /**
   * Fragment `i` occupies the positions right after the rendering of the
   * fragments before it: rendering keeps every fragment, in order.
   */
  lemma JoinAt(sb: seq<string>, i: nat)
    requires i < |sb|
    ensures |Join(sb[..i])| + |sb[i]| <= |Join(sb)|
    ensures Join(sb)[|Join(sb[..i])|..|Join(sb[..i])| + |sb[i]|] == sb[i]
  {
    assert sb == sb[..i] + ([sb[i]] + sb[i + 1..]);
    JoinConcat(sb[..i], [sb[i]] + sb[i + 1..]);
    JoinConcat([sb[i]], sb[i + 1..]);
  }

  /** `pieces.join(sep)`: the pieces in order with `sep` between neighbours. */
  function JoinWith(pieces: seq<string>, sep: string): (r: string)
    ensures |pieces| == 1 ==> r == pieces[0]
  {
    if |pieces| == 0 then ""
    else if |pieces| == 1 then pieces[0]
    else pieces[0] + sep + JoinWith(pieces[1..], sep)
  }

  /** A piece in front of two or more: that piece, the separator, then the rest joined. */
  lemma JoinWithCons(x: string, more: seq<string>, sep: string)
    requires |more| > 0
    ensures JoinWith([x] + more, sep) == x + sep + JoinWith(more, sep)
  {
    assert ([x] + more)[1..] == more;
  }

  /** Joining one more piece adds the separator and that piece at the end. */
  lemma {:induction false} JoinWithSnoc(pieces: seq<string>, x: string, sep: string)
    requires |pieces| > 0
    ensures JoinWith(pieces + [x], sep) == JoinWith(pieces, sep) + sep + x
  {
    if |pieces| == 1 {
      assert (pieces + [x])[1..] == [x];
    } else {
      assert (pieces + [x])[1..] == pieces[1..] + [x];
      JoinWithSnoc(pieces[1..], x, sep);
    }
  }

  /** With an empty separator, joining is plain rendering. */
  lemma {:induction false} JoinWithEmptySeparator(pieces: seq<string>)
    ensures JoinWith(pieces, "") == Join(pieces)
  {
    if |pieces| > 1 {
      JoinWithEmptySeparator(pieces[1..]);
      assert pieces == [pieces[0]] + pieces[1..];
      JoinConcat([pieces[0]], pieces[1..]);
    }
  }
}
