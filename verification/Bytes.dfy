/** The byte type shared by every model here, and the few sequence facts they use. */
module Bytes {
  type byte = b: int | 0 <= b < 256

  datatype Option<+T> = None | Some(value: T)

  const CR: byte := 13
  const LF: byte := 10

  /** isspace in the C locale. */
  predicate IsSpace(c: byte) {
    c == 32 || 9 <= c <= 13
  }

  function Min(a: nat, b: nat): nat {
    if a <= b then a else b
  }

  /** A text literal as bytes. */
  function Ascii(s: string): (r: seq<byte>)
    requires forall c <- s :: c < 128 as char
    ensures |r| == |s| && forall i | 0 <= i < |s| :: r[i] == s[i] as int
  {
    if s == [] then []
    else
      assert s[0] in s && forall c <- s[1..] :: c in s;
      var first: byte := s[0] as int;
      [first] + Ascii(s[1..])
  }

  /** What counts as white space: tab, line feed, vertical tab, form feed, carriage return and blank. */
  lemma SpacesAre(c: byte)
    ensures IsSpace(c) <==> c in [9, 10, 11, 12, 13, 32]
  {
  }

  /** The concatenation of a list of byte strings. */
  function Concat(parts: seq<seq<byte>>): seq<byte> {
    if parts == [] then [] else parts[0] + Concat(parts[1..])
  }

  lemma ConcatOne(part: seq<byte>)
    ensures Concat([part]) == part
  {
  }

  lemma {:induction false} ConcatAppend(a: seq<seq<byte>>, b: seq<seq<byte>>)
    ensures Concat(a + b) == Concat(a) + Concat(b)
  {
    if a == [] {
      assert a + b == b;
    } else {
      assert (a + b)[1..] == a[1..] + b;
      ConcatAppend(a[1..], b);
    }
  }

  /** Bytes taken and bytes left, carried through one more step. */
  lemma Carry(taken: seq<byte>, got: seq<byte>, left: seq<byte>, unread: seq<byte>, gave: seq<byte>, fed: seq<byte>)
    requires taken + unread == fed && got + left == unread + gave
    ensures (taken + got) + left == fed + gave
  {
    assert (taken + got) + left == taken + (got + left);
    assert taken + (unread + gave) == (taken + unread) + gave;
  }
}
