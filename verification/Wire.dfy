/**
 The text of discovery datagrams: how they are written, cut into tokens in place, and read back.
 */
module Wire {
  const NUL: char := '\0'
  const SPACE: char := ' '
  const SEPARATOR: char := '|'
  const NO_TYPES: string := "."
  const DISPATCH: string := "DISPATCH "
  const EVENT_BUFFER_SIZE: nat := 1500

  const DISCOVERY_EXIT: char := 'X'
  const DISCOVERY_AVAILABLE: char := 'A'
  const DISCOVERY_REMOVE: char := 'R'
  const DISCOVERY_SEARCH: char := 'S'

  /** The characters isprint accepts. */
  predicate IsPrint(c: char)
  {
    ' ' <= c <= '~'
  }

  predicate Printable(s: string)
  {
    forall c :: c in s ==> IsPrint(c)
  }

  /** A text that stays one token: printable and without the space that ends a token. */
  predicate Plain(s: string)
  {
    Printable(s) && SPACE !in s
  }

  /** A field that survives on the wire. */
  predicate Word(s: string)
  {
    s != "" && Plain(s)
  }

  function SetOf(order: seq<string>): set<string>
  {
    set s | s in order
  }

  /** An iteration order of a set of strings: the empty string, being the least, can only come first. */
  predicate SetOrder(order: seq<string>)
  {
    (forall i, j :: 0 <= i < j < |order| ==> order[i] != order[j]) && (forall i :: 0 < i < |order| ==> order[i] != "")
  }

  function NonEmpty(order: seq<string>): seq<string>
  {
    if order != [] && order[0] == "" then order[1..] else order
  }

  // ---------------------------------------------------------------- tokens of a text

  function Token(s: string): string
  {
    if s == "" || s[0] == SPACE then "" else [s[0]] + Token(s[1..])
  }

  function Tail(s: string): string
  {
    if s == "" then "" else if s[0] == SPACE then s[1..] else Tail(s[1..])
  }

  /** The token and the tail are the two sides of the first space, if there is one. */
  lemma {:induction false} TokenTail(s: string)
    ensures SPACE !in Token(s)
    ensures s == if SPACE in s then Token(s) + [SPACE] + Tail(s) else Token(s)
    ensures SPACE !in s ==> Tail(s) == ""
  {
    if s != "" {
      assert s == [s[0]] + s[1..];
      if s[0] != SPACE {
        TokenTail(s[1..]);
        var token, tail := Token(s[1..]), Tail(s[1..]);
        assert SPACE in s <==> SPACE in s[1..];
        assert Token(s) == [s[0]] + token && Tail(s) == tail;
        assert [s[0]] + (token + [SPACE] + tail) == ([s[0]] + token) + [SPACE] + tail;
      }
    }
  }

  lemma {:induction false} TokenOf(t: string, rest: string)
    requires SPACE !in t
    ensures Token(t) == t && Tail(t) == ""
    ensures Token(t + [SPACE] + rest) == t && Tail(t + [SPACE] + rest) == rest
  {
    var whole := t + [SPACE] + rest;
    if t == "" {
      assert whole[1..] == rest;
    } else {
      TokenOf(t[1..], rest);
      assert whole[1..] == t[1..] + [SPACE] + rest;
    }
  }

  // ---------------------------------------------------------------- tokens cut in place

  /** The NUL-terminated string `t` starts at position `p` of a buffer. */
  ghost predicate At(s: seq<char>, p: nat, t: string)
  {
    p + |t| < |s| && s[p + |t|] == NUL && forall k :: p <= k < p + |t| ==> s[k] == t[k - p] && s[k] != NUL
  }

  /** The first position at or after the start of a text where a token of it ends. */
  lemma TokenEnd(s: seq<char>, p: nat, t: string)
    requires At(s, p, t)
    ensures |Token(t)| <= |t|
    ensures forall k :: p <= k < p + |Token(t)| ==> s[k] != SPACE && s[k] != NUL
    ensures s[p + |Token(t)|] == if SPACE in t then SPACE else NUL
    ensures SPACE !in t ==> Token(t) == t
    ensures SPACE in t ==> |t| == |Token(t)| + 1 + |Tail(t)|
  {
    TokenTail(t);
    forall k | p <= k < p + |Token(t)| ensures s[k] != SPACE && s[k] != NUL {
      assert t[k - p] == Token(t)[k - p];
    }
  }

  /** Writing a NUL over the first space of a text leaves its token and its tail as two texts. */
  lemma CutInTwo(s: seq<char>, s': seq<char>, p: nat, t: string)
    requires At(s, p, t) && SPACE in t
    requires p + |Token(t)| < |s| && s' == s[p + |Token(t)| := NUL]
    ensures At(s', p, Token(t)) && At(s', p + |Token(t)| + 1, Tail(t))
  {
    hide Token, Tail;
    TokenTail(t);
    var e := p + |Token(t)|;
    forall k | p <= k < e ensures s'[k] == Token(t)[k - p] && s'[k] != NUL {
      assert s[k] == t[k - p];
    }
    forall k | e + 1 <= k < p + |t| ensures s'[k] == Tail(t)[k - (e + 1)] && s'[k] != NUL {
      assert s[k] == t[k - p];
    }
  }

  /** The first space or terminator at or after `start`, not looking past the size of the buffer. */
  method FindEnd(event: array<char>, base: nat, start: nat, ghost text: string) returns (end: nat)
    requires event.Length == EVENT_BUFFER_SIZE + 1 && At(event[..], base + start, text)
    ensures end == start + |Token(text)| && base + end <= EVENT_BUFFER_SIZE
    ensures event[base + end] == if SPACE in text then SPACE else NUL
    ensures SPACE in text ==> base + end < EVENT_BUFFER_SIZE
  {
    hide Token, Tail;
    TokenEnd(event[..], base + start, text);
    end := start;
    while end < EVENT_BUFFER_SIZE && event[base + end] != SPACE && event[base + end] != NUL
      invariant start <= end <= start + |Token(text)|
    {
      assert event[..][base + end] == event[base + end];
      end := end + 1;
    }
    assert event[..][base + end] == event[base + end];
  }

  /** Ends the token at `start` of the data that begins at `base`, and says where the next one starts. */
  method NextToken(event: array<char>, base: nat, start: nat, ghost text: string) returns (next: nat)
    requires event.Length == EVENT_BUFFER_SIZE + 1
    requires At(event[..], base + start, text)
    modifies event
    ensures next == start + |Token(text)| + if SPACE in text then 1 else 0
    ensures base + next <= EVENT_BUFFER_SIZE
    ensures At(event[..], base + start, Token(text)) && At(event[..], base + next, Tail(text))
    ensures forall k :: 0 <= k < base + start ==> event[k] == old(event[k])
  {
    hide Token, Tail, At;
    TokenTail(text);
    AtFits(event[..], base + start, text);
    if SPACE !in text {
      AtEnd(event[..], base + start, text);
    }
    if start >= EVENT_BUFFER_SIZE {
      return start;
    }
    var end := FindEnd(event, base, start, text);
    if end == EVENT_BUFFER_SIZE || event[base + end] == NUL {
      return end;
    }
    event[base + end] := NUL;
    assert event[..] == old(event[..])[base + end := NUL];
    CutInTwo(old(event[..]), event[..], base + start, text);
    next := end + 1;
    AtFits(event[..], base + next, Tail(text));
  }

  lemma AtEnd(s: seq<char>, p: nat, t: string)
    requires At(s, p, t)
    ensures At(s, p + |t|, "")
  {
  }

  lemma AtStart(s: seq<char>, p: nat, t: string)
    requires At(s, p, t)
    ensures p < |s| && (s[p] == NUL <==> t == "")
  {
  }

  lemma AtFits(s: seq<char>, p: nat, t: string)
    requires At(s, p, t)
    ensures p + |t| < |s|
  {
  }

  method ReadString(event: array<char>, p: nat, ghost text: string) returns (s: string)
    requires At(event[..], p, text)
    ensures s == text
  {
    s := "";
    var i := p;
    while event[i] != NUL
      invariant p <= i <= p + |text| < event.Length
      invariant s == text[..i - p]
      decreases event.Length - i
    {
      assert event[i] == event[..][i];
      s := s + [event[i]];
      i := i + 1;
    }
    assert event[i] == event[..][i];
  }
}
