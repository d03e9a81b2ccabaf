/**
 The match condition that ends the reading of a request head: an empty line, or a byte no HTTP head may hold.
 It is called again from the position it last returned whenever more bytes have arrived. Positions are
 positions in the whole input `w`; a call looks at `w[b..n]`.
 */
module CrlfSearcher {
  import opened Bytes

  /** A control byte other than CR and LF, or a byte outside ASCII. */
  predicate Foreign(c: byte) {
    (c < 0x20 && c != CR && c != LF) || c >= 0x80
  }

  /** `w[e..j]` is a prefix of CR LF CR LF. */
  predicate Matches(w: seq<byte>, e: nat, j: nat) {
    && e <= j <= |w| && j - e <= 4
    && (j - e >= 1 ==> w[e] == CR)
    && (j - e >= 2 ==> w[e + 1] == LF)
    && (j - e >= 3 ==> w[e + 2] == CR)
    && (j - e >= 4 ==> w[e + 3] == LF)
  }

  /** Seen from `b` on, a match ends at position `j`. */
  predicate Hit(w: seq<byte>, b: nat, j: nat) {
    b < j <= |w| && ((j - 4 >= b && Matches(w, j - 4, j)) || Foreign(w[j - 1]))
  }

  predicate NoHit(w: seq<byte>, b: nat, n: nat) {
    forall j | b < j <= n :: !Hit(w, b, j)
  }

  /** `j` is the least position at which a match ends. */
  predicate FirstHit(w: seq<byte>, b: nat, j: nat) {
    Hit(w, b, j) && NoHit(w, b, j - 1)
  }

  /** `w[e..n]` is a proper prefix of the pattern. */
  predicate Partial(w: seq<byte>, e: nat, n: nat) {
    Matches(w, e, n) && n - e < 4
  }

  /** `e` starts the longest suffix of `w[b..n]` that is a proper prefix of the pattern. */
  predicate LongestPartial(w: seq<byte>, b: nat, e: nat, n: nat) {
    b <= e && Partial(w, e, n) && forall d | b <= d < e :: !Partial(w, d, n)
  }

  datatype State = Nothing | Cr | CrLf | CrLfCr

  function Length(state: State): nat {
    match state
    case Nothing => 0
    case Cr => 1
    case CrLf => 2
    case CrLfCr => 3
  }

  /** The searcher's state is the length of the partial match before `n`. */
  predicate Tracks(w: seq<byte>, b: nat, n: nat, state: State) {
    n >= Length(state) && LongestPartial(w, b, n - Length(state), n)
  }

  predicate Stops(state: State, c: byte) {
    Foreign(c) || (state.CrLfCr? && c == LF)
  }

  function Move(state: State, c: byte): State {
    if c == CR then (if state.CrLf? then CrLfCr else Cr)
    else if c == LF && state.Cr? then CrLf
    else Nothing
  }

  /** A partial match one byte longer extends a partial match of the bytes before. */
  lemma PartialShrinks(w: seq<byte>, d: nat, n: nat)
    requires n < |w| && d <= n && Matches(w, d, n + 1)
    ensures Partial(w, d, n)
  {
  }

  /** One turn of the searcher's loop. */
  lemma SearchStep(w: seq<byte>, b: nat, n: nat, state: State)
    requires b <= n < |w| && Tracks(w, b, n, state)
    ensures Hit(w, b, n + 1) <==> Stops(state, w[n])
    ensures !Stops(state, w[n]) ==> Tracks(w, b, n + 1, Move(state, w[n]))
  {
    var e := n - Length(state);
    if n - 3 >= b && Matches(w, n - 3, n + 1) {
      PartialShrinks(w, n - 3, n);
    }
    var m := n + 1;
    var e' := m - Length(Move(state, w[n]));
    forall d | b <= d < e'
      ensures Partial(w, d, m) ==> Stops(state, w[n])
    {
      if Partial(w, d, m) {
        PartialShrinks(w, d, n);
        assert e <= d;
      }
    }
  }

  /** The searcher: one pass over what arrived from `begin` on. */
  method Search(input: seq<byte>, begin: nat) returns (pos: nat, found: bool)
    requires begin <= |input|
    ensures found ==> FirstHit(input, begin, pos)
    ensures !found ==> NoHit(input, begin, |input|) && LongestPartial(input, begin, pos, |input|)
  {
    var excluded, cur := begin, begin;
    var state := Nothing;
    while cur < |input|
      invariant begin <= cur <= |input|
      invariant Tracks(input, begin, cur, state) && excluded == cur - Length(state)
      invariant NoHit(input, begin, cur)
    {
      var c := input[cur];
      SearchStep(input, begin, cur, state);
      if c == CR {
        if state == CrLf {
          state := CrLfCr;
        } else {
          excluded := cur;
          state := Cr;
        }
      } else if c == LF {
        if state == Cr {
          state := CrLf;
        } else if state == CrLfCr {
          return cur + 1, true;
        } else {
          state := Nothing;
        }
      } else if c <= 0x1F || c >= 0x80 {
        return cur + 1, true;
      } else {
        state := Nothing;
      }
      cur := cur + 1;
      if state == Nothing {
        excluded := cur;
      }
    }
    pos, found := excluded, false;
  }

  // ---------- arrival in pieces ----------

  /** Searching on from `e` sees exactly the matches that end in bytes newly arrived. */
  lemma HitFromPartial(w: seq<byte>, e: nat, n: nat, j: nat)
    requires LongestPartial(w, 0, e, n) && n < j
    ensures Hit(w, 0, j) <==> Hit(w, e, j)
  {
    if j <= |w| && 0 <= j - 4 < e && Matches(w, j - 4, j) {
      assert Partial(w, j - 4, n);
    }
  }

  /** A search from `e` answers for the whole input. */
  lemma ResumeSearch(w: seq<byte>, e: nat, n: nat, pos: nat, found: bool)
    requires n <= |w| && NoHit(w, 0, n) && LongestPartial(w, 0, e, n)
    requires found ==> FirstHit(w, e, pos)
    requires !found ==> NoHit(w, e, |w|) && LongestPartial(w, e, pos, |w|)
    ensures found ==> FirstHit(w, 0, pos)
    ensures !found ==> NoHit(w, 0, |w|) && LongestPartial(w, 0, pos, |w|)
  {
    forall j | n < j <= |w|
      ensures Hit(w, 0, j) <==> Hit(w, e, j)
    {
      HitFromPartial(w, e, n, j);
    }
    if found && pos <= n {
      assert Hit(w, 0, pos);
    }
    if !found {
      forall d | 0 <= d < e
        ensures !Partial(w, d, |w|)
      {
        if Partial(w, d, |w|) {
          assert Partial(w, d, n);
        }
      }
    }
  }

  /** More bytes change neither the matches nor the partial match found so far. */
  lemma Extend(w: seq<byte>, t: seq<byte>, e: nat)
    ensures NoHit(w, 0, |w|) ==> NoHit(w + t, 0, |w|)
    ensures LongestPartial(w, 0, e, |w|) ==> LongestPartial(w + t, 0, e, |w|)
    ensures FirstHit(w, 0, e) ==> FirstHit(w + t, 0, e)
  {
    var x := w + t;
    forall d: nat, j: nat | j <= |w|
      ensures Matches(x, d, j) <==> Matches(w, d, j)
    {
    }
    assert forall j: nat | j <= |w| :: Hit(x, 0, j) <==> Hit(w, 0, j);
    assert forall d: nat :: Partial(x, d, |w|) <==> Partial(w, d, |w|);
  }

  lemma ConcatNext(pieces: seq<seq<byte>>, i: nat)
    requires i < |pieces|
    ensures Concat(pieces[..i + 1]) == Concat(pieces[..i]) + pieces[i]
  {
    assert pieces[..i + 1] == pieces[..i] + [pieces[i]];
    ConcatAppend(pieces[..i], [pieces[i]]);
    ConcatOne(pieces[i]);
  }

  lemma ConcatRest(pieces: seq<seq<byte>>, i: nat)
    requires i <= |pieces|
    ensures Concat(pieces) == Concat(pieces[..i]) + Concat(pieces[i..])
  {
    assert pieces == pieces[..i] + pieces[i..];
    ConcatAppend(pieces[..i], pieces[i..]);
  }

  /**
   Reading until the condition matches, with the input arriving in any pieces: the answer depends on the bytes
   alone. A match is found if and only if there is one, at the least position where one ends.
   */
  method ReadUntil(pieces: seq<seq<byte>>) returns (pos: nat, found: bool)
    ensures var w := Concat(pieces);
      if found then FirstHit(w, 0, pos) else NoHit(w, 0, |w|) && LongestPartial(w, 0, pos, |w|)
  {
    var buffer: seq<byte> := [];
    var from: nat := 0;
    var i := 0;
    while i < |pieces|
      invariant 0 <= i <= |pieces| && buffer == Concat(pieces[..i])
      invariant NoHit(buffer, 0, |buffer|) && LongestPartial(buffer, 0, from, |buffer|)
    {
      ghost var n := |buffer|;
      Extend(buffer, pieces[i], from);
      buffer := buffer + pieces[i];
      ConcatNext(pieces, i);
      ghost var e := from;
      var at, matched := Search(buffer, from);
      ResumeSearch(buffer, e, n, at, matched);
      if matched {
        ConcatRest(pieces, i + 1);
        Extend(buffer, Concat(pieces[i + 1..]), at);
        return at, true;
      }
      from := at;
      i := i + 1;
    }
    assert pieces[..i] == pieces;
    pos, found := from, false;
  }

  lemma AnswerUnique(w: seq<byte>, p: nat, found1: bool, q: nat, found2: bool)
    requires if found1 then FirstHit(w, 0, p) else NoHit(w, 0, |w|) && LongestPartial(w, 0, p, |w|)
    requires if found2 then FirstHit(w, 0, q) else NoHit(w, 0, |w|) && LongestPartial(w, 0, q, |w|)
    ensures found1 == found2 && p == q
  {
  }

  /** What an answer means, byte by byte, with no word for matches: 13, 10, 13, 10, or a byte no head may hold. */
  predicate EndsHead(w: seq<byte>, j: nat) {
    && 0 < j <= |w|
    && ((j >= 4 && w[j - 4..j] == [13, 10, 13, 10])
        || w[j - 1] >= 128 || (w[j - 1] < 32 && w[j - 1] != 10 && w[j - 1] != 13))
  }

  lemma HitMeans(w: seq<byte>, j: nat)
    ensures Hit(w, 0, j) <==> EndsHead(w, j)
  {
    if 4 <= j <= |w| {
      LastFour(w, j);
    }
  }

  lemma LastFour(w: seq<byte>, j: nat)
    requires 4 <= j <= |w|
    ensures Matches(w, j - 4, j) <==> w[j - 4..j] == [13, 10, 13, 10]
  {
    var last := w[j - 4..j];
    assert forall i | 0 <= i < 4 :: last[i] == w[j - 4 + i];
    assert last == [last[0], last[1], last[2], last[3]];
  }

  /** `w[e..]` is an unfinished 13, 10, 13, 10. */
  predicate Begins(w: seq<byte>, e: nat) {
    e <= |w| && |w| - e < 4 && w[e..] == [13, 10, 13, 10][..|w| - e]
  }

  lemma PartialMeans(w: seq<byte>, e: nat)
    ensures Partial(w, e, |w|) <==> Begins(w, e)
  {
    if Partial(w, e, |w|) {
      assert forall i | 0 <= i < |w| - e :: w[e..][i] == w[e + i];
    }
  }

  /**
   The searcher's answer over input in any pieces: found exactly when a head ends somewhere, at the least such place;
   otherwise the place where the longest unfinished end begins.
   */
  method ReadHead(pieces: seq<seq<byte>>) returns (pos: nat, found: bool)
    ensures var w := Concat(pieces);
      && (found <==> exists j :: 0 <= j <= |w| && EndsHead(w, j))
      && (found ==> EndsHead(w, pos) && forall j | 0 <= j < pos :: !EndsHead(w, j))
      && (!found ==> Begins(w, pos) && forall e | 0 <= e < pos :: !Begins(w, e))
  {
    ghost var w := Concat(pieces);
    pos, found := ReadUntil(pieces);
    forall j ensures Hit(w, 0, j) <==> EndsHead(w, j) {
      HitMeans(w, j);
    }
    forall e ensures Partial(w, e, |w|) <==> Begins(w, e) {
      PartialMeans(w, e);
    }
    assert found ==> pos <= |w|;
  }

  /** Two arrivals of the same bytes are answered alike. */
  method ArrivalIndependent(pieces1: seq<seq<byte>>, pieces2: seq<seq<byte>>)
    returns (pos1: nat, found1: bool, pos2: nat, found2: bool)
    requires Concat(pieces1) == Concat(pieces2)
    ensures pos1 == pos2 && found1 == found2
  {
    pos1, found1 := ReadUntil(pieces1);
    pos2, found2 := ReadUntil(pieces2);
    AnswerUnique(Concat(pieces1), pos1, found1, pos2, found2);
  }
}
