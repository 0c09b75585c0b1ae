/** Cutting strings at separators, as g_strsplit and g_strjoinv do. */
module Strings {

  /** The position of the first c, or the length when there is none. */
  function IndexOf(s: string, c: char): (i: nat)
    ensures i <= |s| && c !in s[..i] && (i < |s| ==> s[i] == c)
  {
    if s == "" || s[0] == c then 0
    else
      var i := IndexOf(s[1..], c);
      assert s[..i + 1] == [s[0]] + s[1..][..i];
      i + 1
  }

  lemma {:induction false} IndexOfUnique(s: string, c: char, i: nat)
    requires i < |s| && s[i] == c && c !in s[..i]
    ensures IndexOf(s, c) == i
  {
    if i > 0 {
      assert s[..i] == [s[0]] + s[1..][..i - 1];
      IndexOfUnique(s[1..], c, i - 1);
    }
  }

  lemma IndexOfFirst(head: string, c: char, tail: string)
    requires c !in head
    ensures IndexOf(head + [c] + tail, c) == |head|
  {
    var s := head + [c] + tail;
    assert s[..|head|] == head;
    IndexOfUnique(s, c, |head|);
  }

  lemma IndexOfNone(s: string, c: char)
    ensures IndexOf(s, c) == |s| <==> c !in s
  {
    if IndexOf(s, c) == |s| {
      assert s[..|s|] == s;
    }
  }

  /** g_strsplit (s, c, -1): the empty string has no pieces. */
  function Split(s: string, c: char): seq<string> {
    if s == "" then [] else Pieces(s, c)
  }

  function Pieces(s: string, c: char): (r: seq<string>)
    ensures r != [] && forall i :: 0 <= i < |r| ==> c !in r[i]
    decreases |s|
  {
    var i := IndexOf(s, c);
    if i == |s| then
      IndexOfNone(s, c);
      [s]
    else [s[..i]] + Pieces(s[i + 1..], c)
  }

  /** g_strjoinv. */
  function Join(list: seq<string>, c: char): string {
    if list == [] then "" else if |list| == 1 then list[0] else list[0] + [c] + Join(list[1..], c)
  }

  lemma PiecesCons(head: string, c: char, tail: string)
    requires c !in head
    ensures Pieces(head + [c] + tail, c) == [head] + Pieces(tail, c)
  {
    hide IndexOf;
    var s := head + [c] + tail;
    IndexOfFirst(head, c, tail);
    assert s[..|head|] == head;
    assert s[|head| + 1..] == tail;
  }

  lemma JoinCons(head: string, rest: seq<string>, c: char)
    requires rest != []
    ensures Join([head] + rest, c) == head + [c] + Join(rest, c)
  {
    assert ([head] + rest)[1..] == rest;
  }

  lemma {:induction false} PiecesOfJoin(list: seq<string>, c: char)
    requires list != [] && forall i :: 0 <= i < |list| ==> c !in list[i]
    ensures Pieces(Join(list, c), c) == list
  {
    hide IndexOf;
    if |list| == 1 {
      IndexOfNone(list[0], c);
    } else {
      hide Pieces, Join;
      var rest := list[1..];
      assert list == [list[0]] + rest;
      PiecesOfJoin(rest, c);
      JoinCons(list[0], rest, c);
      PiecesCons(list[0], c, Join(rest, c));
    }
  }

  /**
   Joining and splitting again gives the pieces back, unless all there is is
   one empty piece.
   */
  lemma SplitOfJoinIff(list: seq<string>, c: char)
    requires forall i :: 0 <= i < |list| ==> c !in list[i]
    ensures Split(Join(list, c), c) == list <==> list != [""]
  {
    if list != [] {
      PiecesOfJoin(list, c);
    }
  }

  lemma {:induction false} JoinOfSplit(s: string, c: char)
    ensures Join(Split(s, c), c) == s
  {
    if s != "" {
      JoinOfPieces(s, c);
    }
  }

  lemma {:induction false} JoinOfPieces(s: string, c: char)
    ensures Join(Pieces(s, c), c) == s
    decreases |s|
  {
    hide IndexOf;
    var i := IndexOf(s, c);
    if i < |s| {
      JoinOfPieces(s[i + 1..], c);
      JoinCons(s[..i], Pieces(s[i + 1..], c), c);
      assert s == s[..i] + [c] + s[i + 1..];
    }
  }
}
