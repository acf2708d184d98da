/**
 Type sets on the wire: written with '|' between the types, "." for no types, and read back.
 */
module TypeList {
  import opened Wire

  function Join(pieces: seq<string>): string
  {
    if pieces == [] then "" else if |pieces| == 1 then pieces[0] else pieces[0] + [SEPARATOR] + Join(pieces[1..])
  }

  /** The pieces between separators; there is always at least one. */
  function Split(s: string): (pieces: seq<string>)
    ensures |pieces| >= 1
  {
    if s == "" then [""]
    else if s[0] == SEPARATOR then [""] + Split(s[1..])
    else var rest := Split(s[1..]); [[s[0]] + rest[0]] + rest[1..]
  }

  /** What printing a type name character by character leaves of it: a NUL prints as nothing. */
  function Visible(t: string): string
  {
    if t == "" then "" else (if t[0] == NUL then "" else [t[0]]) + Visible(t[1..])
  }

  /** Whether a separator is due after a type name: unless the last character written, if any, was a NUL. */
  function Separates(t: string, before: bool): bool
  {
    if t == "" then before else t[|t| - 1] != NUL
  }

  function Text(order: seq<string>, separate: bool): string
  {
    if order == [] then ""
    else (if separate then [SEPARATOR] else "") + Visible(order[0]) + Text(order[1..], Separates(order[0], separate))
  }

  /** The text written for a type set iterated in `order`. */
  function Written(order: seq<string>): string
  {
    if order == [] then NO_TYPES else Text(order, false)
  }

  /** The type set read from a token. */
  function Parsed(s: string): set<string>
  {
    if s == "" || s == NO_TYPES then {} else SetOf(Split(s))
  }

  lemma TextStep(out: string, order: seq<string>, i: nat, separate: bool)
    requires i < |order|
    ensures out + Text(order[i..], separate)
         == (out + (if separate then [SEPARATOR] else "") + Visible(order[i]))
            + Text(order[i + 1..], Separates(order[i], separate))
  {
    assert order[i..][1..] == order[i + 1..];
  }

  lemma VisibleStep(out: string, t: string, j: nat)
    requires j < |t|
    ensures out + Visible(t[j..]) == (out + if t[j] == NUL then "" else [t[j]]) + Visible(t[j + 1..])
  {
    assert t[j..][1..] == t[j + 1..];
  }

  /** Prints one type name through the one-character scratch buffer. */
  method WriteType(out: string, t: string, scratch: char) returns (out': string, scratch': char)
    ensures out' == out + Visible(t) && (scratch' != NUL <==> Separates(t, scratch != NUL))
  {
    out', scratch' := out, scratch;
    for j := 0 to |t|
      invariant out' + Visible(t[j..]) == out + Visible(t)
      invariant scratch' == if j == 0 then scratch else t[j - 1]
    {
      VisibleStep(out', t, j);
      scratch' := t[j];
      if scratch' != NUL {
        out' := out' + [scratch'];
      }
    }
    assert t[|t|..] == "" && t[..] == t;
  }

  /** Writes type i of a set, after a separator if one is due. */
  method WriteNext(out: string, order: seq<string>, i: nat, scratch: char) returns (out': string, scratch': char)
    requires i < |order|
    ensures out' + Text(order[i + 1..], scratch' != NUL) == out + Text(order[i..], scratch != NUL)
  {
    hide Visible, Separates, Text;
    TextStep(out, order, i, scratch != NUL);
    var separated := out + if scratch != NUL then [SEPARATOR] else "";
    out', scratch' := WriteType(separated, order[i], scratch);
  }

  /**
   Writes a type set character by character.  The scratch buffer doubles as the flag for "something was
   written", which is why an empty type name writes no separator and a NUL at the end of one swallows it.
   */
  method WriteTypes(order: seq<string>) returns (out: string)
    ensures out == Written(order)
  {
    if order == [] {
      return NO_TYPES;
    }
    hide Text;
    WrittenIs(order);
    out := "";
    var scratch := NUL;
    for i := 0 to |order|
      invariant out + Text(order[i..], scratch != NUL) == Written(order)
    {
      out, scratch := WriteNext(out, order, i, scratch);
    }
    NoText(scratch != NUL);
    assert order[|order|..] == [];
  }

  lemma WrittenIs(order: seq<string>)
    requires order != []
    ensures Written(order) == "" + Text(order[0..], false)
  {
    assert order[0..] == order;
  }

  lemma {:induction false} SplitPiece(piece: string, rest: string)
    requires SEPARATOR !in piece
    ensures Split(piece) == [piece]
    ensures Split(piece + [SEPARATOR] + rest) == [piece] + Split(rest)
  {
    var whole := piece + [SEPARATOR] + rest;
    if piece == "" {
      assert whole[1..] == rest;
    } else {
      SplitPiece(piece[1..], rest);
      assert piece == [piece[0]] + piece[1..];
      assert whole[1..] == piece[1..] + [SEPARATOR] + rest;
    }
  }

  lemma PiecesOf(piece: string, rest: string)
    requires SEPARATOR !in piece
    ensures SetOf(Split(piece)) == {piece}
    ensures SetOf(Split(piece + [SEPARATOR] + rest)) == {piece} + SetOf(Split(rest))
  {
    SplitPiece(piece, rest);
  }

  /** Extracts one piece, and reports whether it was ended by the end of the text. */
  method GetLine(s: string, pos: nat) returns (piece: string, next: nat, eof: bool)
    requires pos <= |s|
    ensures pos <= next <= |s| && (!eof ==> pos < next)
    ensures SetOf(Split(s[pos..])) == {piece} + if eof then {} else SetOf(Split(s[next..]))
  {
    var end := pos;
    while end < |s| && s[end] != SEPARATOR
      invariant pos <= end <= |s| && SEPARATOR !in s[pos..end]
    {
      end := end + 1;
    }
    piece, next, eof := s[pos..end], end, end == |s|;
    if eof {
      assert s[pos..] == piece;
      PiecesOf(piece, "");
    } else {
      next := end + 1;
      assert s[pos..] == piece + [SEPARATOR] + s[next..];
      PiecesOf(piece, s[next..]);
    }
  }

  method ParseTypes(s: string) returns (types: set<string>)
    ensures types == Parsed(s)
  {
    types := {};
    if s == "" || s == NO_TYPES {
      return;
    }
    var pos, eof := 0, false;
    ghost var all, left := SetOf(Split(s)), SetOf(Split(s));
    assert s[0..] == s;
    while !eof
      invariant pos <= |s|
      invariant all == types + left
      invariant left == if eof then {} else SetOf(Split(s[pos..]))
      decreases !eof, |s| - pos
    {
      var piece;
      piece, pos, eof := GetLine(s, pos);
      types := types + {piece};
      left := if eof then {} else SetOf(Split(s[pos..]));
    }
  }

  // ---------------------------------------------------------------- the round trip

  /** The type sets that survive being written and read. */
  predicate Writable(order: seq<string>)
  {
    (forall t :: t in order ==> t != "" && SEPARATOR !in t && NUL !in t) && order != [NO_TYPES]
  }

  lemma {:induction false} VisibleChars(t: string, c: char)
    ensures c in Visible(t) <==> c in t && c != NUL
    ensures NUL !in t ==> Visible(t) == t
  {
    if t != "" {
      VisibleChars(t[1..], c);
      assert t == [t[0]] + t[1..];
    }
  }

  /** The text has the characters of the type names, separators and no NUL. */
  lemma {:induction false} TextChars(order: seq<string>, separate: bool, c: char)
    ensures c != SEPARATOR ==> (c in Text(order, separate) <==> c != NUL && exists t :: t in order && c in t)
  {
    if order != [] {
      TextChars(order[1..], Separates(order[0], separate), c);
      VisibleChars(order[0], c);
      assert order == [order[0]] + order[1..];
    }
  }

  lemma TextHead(order: seq<string>, separate: bool)
    requires order != [] && order[0] != "" && NUL !in order[0]
    ensures Text(order, separate) == (if separate then [SEPARATOR] else "") + order[0] + Text(order[1..], true)
  {
    VisibleChars(order[0], NUL);
    assert order[0][|order[0]| - 1] in order[0];
  }

  lemma Glue(before: string, first: string, rest: string)
    ensures before + first + ([SEPARATOR] + rest) == before + (first + [SEPARATOR] + rest)
    ensures before + first + "" == before + first
  {
  }

  /** Type names without a NUL are written with separators between those that are not empty. */
  lemma {:induction false} TextIsJoin(order: seq<string>, separate: bool)
    requires order != [] && forall t :: t in order ==> t != "" && NUL !in t
    ensures Text(order, separate) == (if separate then [SEPARATOR] else "") + Join(order)
  {
    hide Visible, Separates, Text, Join;
    assert order[0] in order;
    TextHead(order, separate);
    JoinStep(order);
    if |order| == 1 {
      NoText(true);
      assert order[1..] == [];
    } else {
      assert forall t :: t in order[1..] ==> t in order;
      TextIsJoin(order[1..], true);
    }
    Glue(if separate then [SEPARATOR] else "", order[0], Join(order[1..]));
  }

  lemma NoText(separate: bool)
    ensures Text([], separate) == ""
  {
  }

  lemma JoinStep(pieces: seq<string>)
    requires pieces != []
    ensures Join(pieces) == if |pieces| == 1 then pieces[0] else pieces[0] + [SEPARATOR] + Join(pieces[1..])
  {
  }

  lemma WrittenIsJoin(order: seq<string>)
    requires SetOrder(order) && order != [] && forall t :: t in order ==> NUL !in t
    ensures Written(order) == Join(NonEmpty(order))
  {
    var kept := NonEmpty(order);
    assert Text(order, false) == Text(kept, false);
    if kept != [] {
      forall t | t in kept ensures t != "" && NUL !in t {
        var i :| 0 <= i < |kept| && kept[i] == t;
      }
      TextIsJoin(kept, false);
    }
  }

  lemma {:induction false} SplitJoin(pieces: seq<string>)
    requires pieces != [] && forall t :: t in pieces ==> SEPARATOR !in t
    ensures Split(Join(pieces)) == pieces
  {
    hide Split, Join;
    assert pieces[0] in pieces;
    JoinStep(pieces);
    if |pieces| == 1 {
      SplitPiece(pieces[0], "");
    } else {
      SplitPiece(pieces[0], Join(pieces[1..]));
      assert forall t :: t in pieces[1..] ==> t in pieces;
      SplitJoin(pieces[1..]);
    }
  }

  lemma SplitStep(s: string)
    requires s != ""
    ensures Split(s) == var rest := Split(s[1..]);
            if s[0] == SEPARATOR then [""] + rest else [[s[0]] + rest[0]] + rest[1..]
  {
  }

  lemma JoinFirst(rest: seq<string>)
    requires rest != []
    ensures Join([""] + rest) == [SEPARATOR] + Join(rest)
  {
    assert ([""] + rest)[1..] == rest;
  }

  lemma JoinLonger(c: char, rest: seq<string>)
    requires rest != []
    ensures Join([[c] + rest[0]] + rest[1..]) == [c] + Join(rest)
  {
    var longer := [[c] + rest[0]] + rest[1..];
    assert longer[1..] == rest[1..];
    JoinStep(rest);
    JoinStep(longer);
  }

  /** The pieces are all of the text: written with separators between them they give it back. */
  lemma {:induction false} JoinSplit(s: string)
    ensures Join(Split(s)) == s
  {
    if s == "" {
      JoinStep([""]);
    } else {
      hide Split, Join;
      JoinSplit(s[1..]);
      SplitStep(s);
      if s[0] == SEPARATOR {
        JoinFirst(Split(s[1..]));
      } else {
        JoinLonger(s[0], Split(s[1..]));
      }
      assert s == [s[0]] + s[1..];
    }
  }

  lemma {:induction false} PiecesHaveNoSeparator(s: string)
    ensures forall t :: t in Split(s) ==> SEPARATOR !in t
    ensures forall t, c :: t in Split(s) && c in t ==> c in s
  {
    if s != "" {
      PiecesHaveNoSeparator(s[1..]);
      assert s == [s[0]] + s[1..];
      if s[0] != SEPARATOR {
        var rest := Split(s[1..]);
        assert rest[0] in rest;
        forall t | t in Split(s)
          ensures SEPARATOR !in t
          ensures forall c :: c in t ==> c in s
        {
          assert t == [s[0]] + rest[0] || t in rest[1..];
        }
      }
    }
  }

  lemma WritableRoundTrip(order: seq<string>)
    requires SetOrder(order) && Writable(order)
    ensures Parsed(Written(order)) == SetOf(order)
  {
    if order != [] {
      assert order[0] in order;
      WrittenIsJoin(order);
      SplitJoin(order);
      SplitPiece("", "");
      SplitPiece(NO_TYPES, "");
      assert Join(order) != "" && Join(order) != NO_TYPES;
    }
  }

  lemma UnwritableIsLost(order: seq<string>)
    requires SetOrder(order) && !Writable(order)
    ensures Parsed(Written(order)) != SetOf(order)
  {
    PiecesHaveNoSeparator(Written(order));
    if t :| t in order && SEPARATOR in t {
      assert t in SetOf(order);
    } else if t :| t in order && NUL in t {
      assert t in SetOf(order);
      TextChars(order, false, NUL);
    } else if "" in order {
      EmptyNameIsLost(order);
    } else {
      assert order == [NO_TYPES] && NO_TYPES in SetOf(order);
      WrittenIsJoin(order);
    }
  }

  lemma EmptyNameIsLost(order: seq<string>)
    requires SetOrder(order) && "" in order && forall t :: t in order ==> NUL !in t && SEPARATOR !in t
    ensures Parsed(Written(order)) != SetOf(order)
  {
    var kept := NonEmpty(order);
    WrittenIsJoin(order);
    assert "" in SetOf(order) && forall t :: t in kept ==> t in order;
    if kept != [] {
      SplitJoin(kept);
    }
  }

  /**
   A type set comes back from the wire as it went exactly when no type name is empty or contains the
   separator or a NUL, and the set is not the one that looks like "no types".
   */
  lemma TypesRoundTrip(order: seq<string>)
    requires SetOrder(order)
    ensures Parsed(Written(order)) == SetOf(order) <==> Writable(order)
  {
    if Writable(order) {
      WritableRoundTrip(order);
    } else {
      UnwritableIsLost(order);
    }
  }

  function TotalLength(order: seq<string>): nat
  {
    if order == [] then 0 else |order[0]| + TotalLength(order[1..])
  }

  lemma {:induction false} JoinLength(pieces: seq<string>)
    requires pieces != []
    ensures |Join(pieces)| == TotalLength(pieces) + |pieces| - 1
  {
    if |pieces| > 1 {
      JoinLength(pieces[1..]);
    } else {
      assert TotalLength(pieces[1..]) == 0;
    }
  }

  /** How long the text of a type set is. */
  lemma WrittenLength(order: seq<string>)
    requires SetOrder(order) && Writable(order)
    ensures |Written(order)| == if order == [] then 1 else TotalLength(order) + |order| - 1
  {
    if order != [] {
      assert order[0] in order;
      WrittenIsJoin(order);
      JoinLength(order);
    }
  }

  /** Nothing is read from a token that was not in it. */
  lemma ParsedChars(s: string, t: string)
    requires t in Parsed(s)
    ensures forall c :: c in t ==> c in s
  {
    PiecesHaveNoSeparator(s);
  }

  /** A character of a type name is in the written text, unless it is a NUL. */
  lemma WrittenChars(order: seq<string>, c: char)
    requires c != SEPARATOR && c != NO_TYPES[0]
    ensures c in Written(order) <==> c != NUL && exists t :: t in order && c in t
  {
    TextChars(order, false, c);
  }
}
