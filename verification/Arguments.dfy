/** The command-line tokenizer of arguments.hpp. */
module Arguments {
  import opened Bytes

  /* ---------- specification ---------- */

  /** isspace in the C locale */
  predicate IsSpace(c: byte) {
    c == SPACE || c == TAB || c == LF || c == VT || c == FF || c == CR
  }

  /** The characters on which the token switch stops; \v and \f are not among them. */
  predicate IsStop(c: byte) {
    c == SPACE || c == LF || c == CR || c == TAB || c == NUL
  }

  function SkipSpaces(s: bytes): (t: bytes)
    ensures |t| <= |s|
    ensures t != [] ==> !IsSpace(t[0])
  {
    if s != [] && IsSpace(s[0]) then SkipSpaces(s[1..]) else s
  }

  predicate Escaped(s: bytes) {
    |s| >= 2 && s[0] == BACKSLASH && s[1] == SPACE
  }

  datatype Scanned = Scanned(word: bytes, rest: bytes)

  /** The word at the front of `s`, backslash-space read as a space, and what follows it. */
  function Word(s: bytes): (r: Scanned)
    ensures |r.rest| <= |s|
    ensures r.rest != [] ==> IsStop(r.rest[0])
    ensures s != [] && !IsStop(s[0]) ==> |r.rest| < |s| && r.word != []
  {
    if s == [] || IsStop(s[0]) then Scanned([], s)
    else if Escaped(s) then
      var r := Word(s[2..]);
      Scanned([SPACE] + r.word, r.rest)
    else
      var r := Word(s[1..]);
      Scanned([s[0]] + r.word, r.rest)
  }

  /** The words of a command line; a NUL ends the text. */
  function Tokens(s: bytes): seq<bytes>
    decreases |s|
  {
    var t := SkipSpaces(s);
    if t == [] || t[0] == NUL then [] else
    var r := Word(t);
    [r.word] + Tokens(r.rest)
  }

  /* ---------- the scanner ---------- */

  /** Having collected `sofar` and standing before `tail`, the scan amounts to `whole`. */
  ghost predicate Scanning(whole: Scanned, sofar: bytes, tail: bytes) {
    whole == Scanned(sofar + Word(tail).word, Word(tail).rest)
  }

  /** The same for the scanner's variables: the word so far is what has been copied, then
      the stretch `top..p`. */
  ghost predicate ScanningAt(whole: Scanned, s: bytes, copied: bytes, top: nat, p: nat) {
    top <= p <= |s| && Scanning(whole, copied + s[top..p], s[p..])
  }

  /** One turn of the inner loop: `\\` before a space consumes both, else one character. */
  lemma ScanStep(whole: Scanned, sofar: bytes, tail: bytes)
    requires Scanning(whole, sofar, tail) && tail != [] && !IsStop(tail[0])
    ensures Escaped(tail) ==> Scanning(whole, sofar + [SPACE], tail[2..])
    ensures !Escaped(tail) ==> Scanning(whole, sofar + [tail[0]], tail[1..])
  {
    if Escaped(tail) {
      assert sofar + ([SPACE] + Word(tail[2..]).word) == sofar + [SPACE] + Word(tail[2..]).word;
    } else {
      assert sofar + ([tail[0]] + Word(tail[1..]).word) == sofar + [tail[0]] + Word(tail[1..]).word;
    }
  }

  /** `*p` for a pointer `p` into the C string `s`; the precondition keeps every access
      at or before the terminator. */
  function At(s: bytes, p: nat): byte
    requires p <= |s|
  {
    if p < |s| then s[p] else NUL
  }

  /** The same turn on a text with indices: `top..p` is the stretch not yet copied. */
  lemma ScanTurn(whole: Scanned, s: bytes, copied: bytes, top: nat, p: nat)
    requires ScanningAt(whole, s, copied, top, p) && p < |s| && !IsStop(s[p])
    ensures if s[p] == BACKSLASH && At(s, p + 1) == SPACE
            then ScanningAt(whole, s, copied + s[top..p], p + 1, p + 2)
            else ScanningAt(whole, s, copied, top, p + 1)
  {
    var sofar, tail := copied + s[top..p], s[p..];
    ScanStep(whole, sofar, tail);
    if Escaped(tail) {
      assert tail[2..] == s[p + 2..] && s[p + 1..p + 2] == [SPACE];
    } else {
      assert tail[1..] == s[p + 1..];
      assert sofar + [tail[0]] == copied + s[top..p + 1];
    }
  }

  lemma ScanStarts(s: bytes, p: nat)
    requires p <= |s|
    ensures ScanningAt(Word(s[p..]), s, [], p, p)
  {
    assert [] + s[p..p] + Word(s[p..]).word == Word(s[p..]).word;
  }

  lemma ScanEnds(whole: Scanned, s: bytes, copied: bytes, top: nat, p: nat)
    requires ScanningAt(whole, s, copied, top, p) && IsStop(At(s, p))
    ensures whole == Scanned(copied + s[top..p], s[p..])
  {
    assert Word(s[p..]) == Scanned([], s[p..]);
  }

  lemma SkipTurn(s: bytes, p: nat)
    requires p < |s| && IsSpace(s[p])
    ensures SkipSpaces(s[p..]) == SkipSpaces(s[p + 1..])
  {
    assert s[p..][1..] == s[p + 1..];
  }

  /** One turn of the outer loop. */
  lemma TokenTurn(s: bytes, t: bytes, r: Scanned)
    requires t == SkipSpaces(s) && t != [] && t[0] != NUL && r == Word(t)
    ensures Tokens(s) == [r.word] + Tokens(r.rest)
  {
  }

  class Arg {
    var argv: seq<bytes>

    constructor ()
      ensures argv == []
    {
      argv := [];
    }

    method Reset()
      modifies this
      ensures argv == []
    {
      argv := [];
    }

    /** The inner loops of `process(const char*)` */
    method SkipPointer(s: bytes, start: nat) returns (p: nat)
      requires NulFree(s) && start <= |s|
      ensures start <= p <= |s|
      ensures s[p..] == SkipSpaces(s[start..])
    {
      p := start;
      while At(s, p) != NUL && IsSpace(At(s, p))
        invariant start <= p <= |s|
        invariant SkipSpaces(s[start..]) == SkipSpaces(s[p..])
        decreases |s| - p
      {
        SkipTurn(s, p);
        p := p + 1;
      }
    }

    method WordPointer(s: bytes, top0: nat) returns (p: nat, word: bytes)
      requires top0 < |s| && NulFree(s) && !IsSpace(s[top0])
      ensures top0 < p <= |s|
      ensures Word(s[top0..]) == Scanned(word, s[p..])
    {
      hide ScanningAt, Word;
      ghost var whole := Word(s[top0..]);
      var top := top0;
      var done := false;
      var spaceArg: bytes := [];
      p := top0;
      ScanStarts(s, p);
      while !done
        invariant top0 <= top <= p <= |s|
        invariant ScanningAt(whole, s, spaceArg, top, p)
        invariant done ==> IsStop(At(s, p))
        decreases |s| - p, !done
      {
        if IsStop(At(s, p)) {
          done := true;
        } else {
          ScanTurn(whole, s, spaceArg, top, p);
          if At(s, p) == BACKSLASH {
            if At(s, p + 1) == SPACE {
              spaceArg := spaceArg + s[top..p];
              p := p + 1;
              top := p;
            }
          }
          p := p + 1;
        }
      }
      ScanEnds(whole, s, spaceArg, top, p);
      word := if spaceArg == [] then s[top..p] else spaceArg + s[top..p];
      assert word == spaceArg + s[top..p];
    }

    /** `process(const char*)`, the null pointer included */
    method ProcessPointer(text: Option<bytes>)
      requires text.Some? ==> NulFree(text.value)
      modifies this
      ensures argv == if text.Some? then Tokens(text.value) else []
    {
      Reset();
      if text.None? { return; }
      var s := text.value;
      var p := 0;
      while true
        invariant p <= |s|
        invariant Tokens(s) == argv + Tokens(s[p..])
        decreases |s| - p
      {
        ghost var start := p;
        p := SkipPointer(s, p);
        if At(s, p) == NUL { return; }
        var word;
        ghost var top := p;
        p, word := WordPointer(s, p);
        TokenTurn(s[start..], s[top..], Scanned(word, s[p..]));
        argv := argv + [word];
      }
    }

    /** The inner loops of `process(const std::string&)`, bounded by `cend()` */
    method SkipString(s: bytes, start: nat) returns (p: nat)
      requires start <= |s|
      ensures start <= p <= |s|
      ensures s[p..] == SkipSpaces(s[start..])
    {
      p := start;
      while p != |s| && IsSpace(s[p])
        invariant start <= p <= |s|
        invariant SkipSpaces(s[start..]) == SkipSpaces(s[p..])
        decreases |s| - p
      {
        SkipTurn(s, p);
        p := p + 1;
      }
    }

    method WordString(s: bytes, top0: nat) returns (p: nat, word: bytes)
      requires top0 < |s| && NulFree(s) && !IsSpace(s[top0])
      ensures top0 < p <= |s|
      ensures Word(s[top0..]) == Scanned(word, s[p..])
    {
      hide ScanningAt, Word;
      ghost var whole := Word(s[top0..]);
      var top := top0;
      var done := false;
      var spaceArg: bytes := [];
      p := top0;
      ScanStarts(s, p);
      while !done && p != |s|
        invariant top0 <= top <= p <= |s|
        invariant ScanningAt(whole, s, spaceArg, top, p)
        invariant done ==> IsStop(At(s, p))
        decreases |s| - p, !done
      {
        if IsStop(s[p]) {
          done := true;
        } else {
          ScanTurn(whole, s, spaceArg, top, p);
          if s[p] == BACKSLASH {
            if p + 1 != |s| && s[p + 1] == SPACE {
              spaceArg := spaceArg + s[top..p];
              p := p + 1;
              top := p;
            }
          }
          p := p + 1;
        }
      }
      ScanEnds(whole, s, spaceArg, top, p);
      word := if spaceArg == [] then s[top..p] else spaceArg + s[top..p];
      assert word == spaceArg + s[top..p];
    }

    /** `process(const std::string&)` */
    method ProcessString(s: bytes)
      requires NulFree(s)
      modifies this
      ensures argv == Tokens(s)
    {
      Reset();
      if s == [] { return; }
      var p := 0;
      while true
        invariant p <= |s|
        invariant Tokens(s) == argv + Tokens(s[p..])
        decreases |s| - p
      {
        ghost var start := p;
        p := SkipString(s, p);
        if p == |s| { return; }
        var word;
        ghost var top := p;
        p, word := WordString(s, p);
        TokenTurn(s[start..], s[top..], Scanned(word, s[p..]));
        argv := argv + [word];
      }
    }
  }
}
