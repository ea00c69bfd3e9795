/** What the tokenizer promises: its words, the print/parse round trip, and the agreement
    of the client's reading of a command with the server's. */
module ArgumentLaws {
  import opened Bytes
  import opened Arguments

  /** What every produced argument looks like. */
  predicate IsToken(t: bytes) {
    && t != []
    && t[0] != VT && t[0] != FF
    && forall i :: 0 <= i < |t| ==> t[i] != TAB && t[i] != LF && t[i] != CR && t[i] != NUL
  }

  lemma {:induction false} WordClean(s: bytes)
    ensures forall i :: 0 <= i < |Word(s).word| ==>
      var c := Word(s).word[i]; c != TAB && c != LF && c != CR && c != NUL
    decreases |s|
  {
    if s == [] || IsStop(s[0]) {
    } else if Escaped(s) {
      WordClean(s[2..]);
    } else {
      WordClean(s[1..]);
    }
  }

  lemma {:induction false} TokensAreTokens(s: bytes)
    ensures forall i :: 0 <= i < |Tokens(s)| ==> IsToken(Tokens(s)[i])
    decreases |s|
  {
    var t := SkipSpaces(s);
    if t != [] && t[0] != NUL {
      WordClean(t);
      TokensAreTokens(Word(t).rest);
    }
  }

  /* ---------- the outer loop of the std::string overload at an embedded NUL ---------- */

  /** `k` turns of the outer loop of `process(const std::string&)`: the arguments when it
      has returned by then. A NUL stops the word loop but not the string. */
  function Turns(s: bytes, k: nat): Option<seq<bytes>>
    decreases k
  {
    if k == 0 then None else
    var t := SkipSpaces(s);
    if t == [] then Some([]) else
    match Turns(Word(t).rest, k - 1)
    case None => None
    case Some(args) => Some([Word(t).word] + args)
  }

  predicate HasNul(s: bytes) {
    exists i :: 0 <= i < |s| && s[i] == NUL
  }

  lemma {:induction false} SkipKeepsNul(s: bytes)
    ensures HasNul(SkipSpaces(s)) <==> HasNul(s)
  {
    if s != [] && IsSpace(s[0]) {
      SkipKeepsNul(s[1..]);
      if HasNul(s) {
        var i :| 0 <= i < |s| && s[i] == NUL;
        assert s[1..][i - 1] == NUL;
      }
      if HasNul(s[1..]) {
        var i :| 0 <= i < |s[1..]| && s[1..][i] == NUL;
        assert s[i + 1] == NUL;
      }
    }
  }

  lemma {:induction false} WordKeepsNul(s: bytes)
    ensures HasNul(Word(s).rest) <==> HasNul(s)
    decreases |s|
  {
    if s == [] || IsStop(s[0]) {
    } else {
      var k := if Escaped(s) then 2 else 1;
      WordKeepsNul(s[k..]);
      if HasNul(s) {
        var i :| 0 <= i < |s| && s[i] == NUL;
        assert s[k..][i - k] == NUL;
      }
      if HasNul(s[k..]) {
        var i :| 0 <= i < |s[k..]| && s[k..][i] == NUL;
        assert s[i + k] == NUL;
      }
    }
  }

  lemma {:induction false} NeverReturnsAtNul(s: bytes, k: nat)
    requires HasNul(s)
    ensures Turns(s, k) == None
    decreases k
  {
    if k > 0 {
      SkipKeepsNul(s);
      WordKeepsNul(SkipSpaces(s));
      NeverReturnsAtNul(Word(SkipSpaces(s)).rest, k - 1);
    }
  }

  lemma {:induction false} ReturnsWithoutNul(s: bytes, k: nat)
    requires !HasNul(s) && |s| < k
    ensures Turns(s, k) == Some(Tokens(s))
    decreases k
  {
    SkipKeepsNul(s);
    var t := SkipSpaces(s);
    if t != [] {
      assert t[0] != NUL;
      WordKeepsNul(t);
      ReturnsWithoutNul(Word(t).rest, k - 1);
    }
  }

  /** The std::string overload returns exactly on strings without an embedded NUL. */
  lemma StringOverloadReturns(s: bytes)
    ensures (exists k: nat :: Turns(s, k).Some?) <==> NulFree(s)
    ensures NulFree(s) ==> Turns(s, |s| + 1) == Some(Tokens(s))
  {
    if NulFree(s) {
      ReturnsWithoutNul(s, |s| + 1);
    } else {
      forall k: nat ensures Turns(s, k) == None {
        NeverReturnsAtNul(s, k);
      }
    }
  }

  /* ---------- print and parse ---------- */

  /** Each space written as backslash-space. */
  function Escape(a: bytes): bytes {
    if a == [] then []
    else (if a[0] == SPACE then [BACKSLASH, SPACE] else [a[0]]) + Escape(a[1..])
  }

  function Print(args: seq<bytes>, sep: byte): bytes {
    if args == [] then []
    else if |args| == 1 then Escape(args[0])
    else Escape(args[0]) + [sep] + Print(args[1..], sep)
  }

  predicate Separates(sep: byte) {
    sep == SPACE || sep == TAB || sep == LF || sep == CR
  }

  predicate EndsInBackslash(a: bytes) {
    a != [] && a[|a| - 1] == BACKSLASH
  }

  /** The argument lists that survive: tokens only, and before a space separator no
      argument ends in a backslash, which would escape the separator. */
  predicate Printable(args: seq<bytes>, sep: byte) {
    && (forall i :: 0 <= i < |args| ==> IsToken(args[i]))
    && (sep == SPACE ==> forall i :: 0 <= i < |args| - 1 ==> !EndsInBackslash(args[i]))
  }

  predicate Clean(a: bytes) {
    forall i :: 0 <= i < |a| ==> a[i] != TAB && a[i] != LF && a[i] != CR && a[i] != NUL
  }

  lemma WordCons(c: byte, s: bytes)
    requires !IsStop(c) && (c == BACKSLASH && s != [] ==> s[0] != SPACE)
    ensures Word([c] + s) == Scanned([c] + Word(s).word, Word(s).rest)
  {
    assert ([c] + s)[1..] == s;
  }

  lemma WordEscape(s: bytes)
    ensures Word([BACKSLASH, SPACE] + s) == Scanned([SPACE] + Word(s).word, Word(s).rest)
  {
    assert ([BACKSLASH, SPACE] + s)[2..] == s;
  }

  lemma EscapeHead(a: bytes)
    requires a != []
    ensures Escape(a) != [] && Escape(a)[0] != SPACE
  {
  }

  lemma EscapeCons(a: bytes, tail: bytes)
    requires a != []
    ensures Escape(a) + tail == (if a[0] == SPACE then [BACKSLASH, SPACE] else [a[0]]) + (Escape(a[1..]) + tail)
  {
  }

  /** Reading one escaped character, before the rest of its argument and `tail`. */
  lemma WordOfEscapedCons(a: bytes, tail: bytes)
    requires Clean(a) && a != []
    requires |a| == 1 && EndsInBackslash(a) && tail != [] ==> tail[0] != SPACE
    ensures var r := Word(Escape(a[1..]) + tail);
      Word(Escape(a) + tail) == Scanned([a[0]] + r.word, r.rest)
  {
    hide Word;
    EscapeCons(a, tail);
    if a[0] == SPACE {
      WordEscape(Escape(a[1..]) + tail);
    } else {
      if |a| > 1 { EscapeHead(a[1..]); } else { assert Escape(a[1..]) == []; }
      WordCons(a[0], Escape(a[1..]) + tail);
    }
  }

  lemma CleanTail(a: bytes)
    requires Clean(a) && a != []
    ensures Clean(a[1..]) && (EndsInBackslash(a[1..]) ==> EndsInBackslash(a))
  {
  }

  /** Reading back one escaped argument in front of a stop. */
  lemma {:induction false} WordOfEscaped(a: bytes, tail: bytes)
    requires Clean(a) && (tail != [] ==> IsStop(tail[0]))
    requires EndsInBackslash(a) && tail != [] ==> tail[0] != SPACE
    ensures Word(Escape(a) + tail) == Scanned(a, tail)
  {
    if a == [] {
      assert Escape(a) + tail == tail;
    } else {
      hide Word, Escape, Clean, EndsInBackslash, IsStop;
      WordOfEscapedCons(a, tail);
      CleanTail(a);
      WordOfEscaped(a[1..], tail);
      assert a == [a[0]] + a[1..];
    }
  }

  /** An argument ending in a backslash swallows the separating space. */
  lemma {:induction false} WordSwallowsSpace(a: bytes, tail: bytes)
    requires Clean(a) && EndsInBackslash(a) && tail != [] && tail[0] == SPACE
    ensures var w := Word(Escape(a) + tail).word; |w| >= |a| && w[|a| - 1] == SPACE
  {
    if |a| == 1 {
      WordEscape(tail[1..]);
      assert Escape(a[1..]) == [];
      assert Escape(a) + tail == [BACKSLASH, SPACE] + tail[1..];
    } else {
      hide Word, Escape;
      WordOfEscapedCons(a, tail);
      WordSwallowsSpace(a[1..], tail);
    }
  }

  lemma EscapeStarts(a: bytes, tail: bytes)
    requires IsToken(a)
    ensures SkipSpaces(Escape(a) + tail) == Escape(a) + tail != []
    ensures (Escape(a) + tail)[0] != NUL
  {
  }

  lemma TokensAfterSeparator(s: bytes, sep: byte)
    requires Separates(sep)
    ensures Tokens([sep] + s) == Tokens(s)
  {
    assert ([sep] + s)[1..] == s;
  }

  lemma PrintCons(args: seq<bytes>, sep: byte)
    requires |args| > 1
    ensures Print(args, sep) == Escape(args[0]) + ([sep] + Print(args[1..], sep))
  {
  }

  /** Reading one printed argument off the front. */
  lemma TokensOfCons(args: seq<bytes>, sep: byte)
    requires |args| > 1 && Separates(sep) && IsToken(args[0])
    requires sep == SPACE ==> !EndsInBackslash(args[0])
    ensures Tokens(Print(args, sep)) == [args[0]] + Tokens(Print(args[1..], sep))
  {
    var tail := [sep] + Print(args[1..], sep);
    PrintCons(args, sep);
    EscapeStarts(args[0], tail);
    WordOfEscaped(args[0], tail);
    TokenTurn(Print(args, sep), Print(args, sep), Scanned(args[0], tail));
    TokensAfterSeparator(Print(args[1..], sep), sep);
  }

  lemma {:induction false} PrintParses(args: seq<bytes>, sep: byte)
    requires Separates(sep) && Printable(args, sep)
    ensures Tokens(Print(args, sep)) == args
  {
    if |args| == 1 {
      assert Escape(args[0]) + [] == Escape(args[0]);
      EscapeStarts(args[0], []);
      WordOfEscaped(args[0], []);
    } else if |args| > 1 {
      hide Tokens, Print;
      TokensOfCons(args, sep);
      forall i | 0 <= i < |args[1..]| - 1 ensures sep == SPACE ==> !EndsInBackslash(args[1..][i]) {
        assert args[1..][i] == args[i + 1];
      }
      PrintParses(args[1..], sep);
    }
  }

  lemma {:induction false} ParsesOnlyPrintable(args: seq<bytes>, sep: byte)
    requires Separates(sep) && Tokens(Print(args, sep)) == args
    ensures Printable(args, sep)
  {
    TokensAreTokens(Print(args, sep));
    if |args| > 1 {
      if sep == SPACE && EndsInBackslash(args[0]) {
        var tail := [sep] + Print(args[1..], sep);
        PrintCons(args, sep);
        EscapeStarts(args[0], tail);
        WordSwallowsSpace(args[0], tail);
        TokenTurn(Print(args, sep), Print(args, sep), Word(Print(args, sep)));
        assert false;
      }
      TokensOfCons(args, sep);
      assert Tokens(Print(args[1..], sep)) == args[1..];
      ParsesOnlyPrintable(args[1..], sep);
      forall i | 0 <= i < |args| - 1 ensures sep == SPACE ==> !EndsInBackslash(args[i]) {
        if i > 0 { assert args[1..][i - 1] == args[i]; }
      }
    }
  }

  /** Printing and tokenizing is the identity on exactly the printable lists. */
  lemma PrintParseRoundTrip(args: seq<bytes>, sep: byte)
    requires Separates(sep)
    ensures Tokens(Print(args, sep)) == args <==> Printable(args, sep)
  {
    if Printable(args, sep) {
      PrintParses(args, sep);
    }
    if Tokens(Print(args, sep)) == args {
      ParsesOnlyPrintable(args, sep);
    }
  }

  /* ---------- the client's words against the server's ---------- */

  function Spaces(s: bytes): nat {
    if s == [] then 0 else (if s[0] == SPACE then 1 else 0) + Spaces(s[1..])
  }

  lemma {:induction false} SpaceFree(s: bytes)
    ensures Spaces(s) == 0 <==> SPACE !in s
  {
    if s != [] { SpaceFree(s[1..]); }
  }

  /** Every space inside a word cost two characters of the text. */
  lemma {:induction false} WordWeight(s: bytes)
    ensures |Word(s).word| + Spaces(Word(s).word) + |Word(s).rest| == |s|
    decreases |s|
  {
    if s == [] || IsStop(s[0]) {
    } else {
      var w := Word(s[if Escaped(s) then 2 else 1..]).word;
      var c := if Escaped(s) then SPACE else s[0];
      assert ([c] + w)[1..] == w;
      WordWeight(s[if Escaped(s) then 2 else 1..]);
    }
  }

  /** A word without spaces is copied as it stands. */
  lemma {:induction false} WordVerbatim(s: bytes)
    requires Spaces(Word(s).word) == 0
    ensures Word(s).word + Word(s).rest == s
    decreases |s|
  {
    if s == [] || IsStop(s[0]) {
    } else {
      var w := Word(s[if Escaped(s) then 2 else 1..]).word;
      var c := if Escaped(s) then SPACE else s[0];
      assert ([c] + w)[1..] == w;
      WordVerbatim(s[1..]);
    }
  }

  /** Plain text: none of its characters is read specially. */
  predicate Plain(s: bytes) {
    IsToken(s) && SPACE !in s
  }

  lemma {:induction false} EscapePlain(a: bytes)
    requires SPACE !in a
    ensures Escape(a) == a
  {
    if a != [] { EscapePlain(a[1..]); }
  }

  lemma PlainIsSoleToken(a: bytes)
    requires Plain(a)
    ensures Tokens(a) == [a]
  {
    EscapePlain(a);
    assert Escape(a) + [] == a;
    EscapeStarts(a, []);
    WordOfEscaped(a, []);
    TokenTurn(a, a, Scanned(a, []));
  }

  /** A name typed with its spaces escaped is one word. */
  lemma EscapedIsSoleToken(a: bytes)
    requires IsToken(a)
    ensures Tokens(Escape(a)) == [a]
  {
    assert Print([a], SPACE) == Escape(a);
    PrintParseRoundTrip([a], SPACE);
  }

  /** What is skipped in front of a word: space, and the characters 9 to 13. */
  lemma BlankSkipped(c: byte, s: bytes)
    requires c == 32 || 9 <= c <= 13
    ensures Tokens([c] + s) == Tokens(s)
  {
    assert ([c] + s)[1..] == s;
  }

  /** "command name", as `sprintf` builds it */
  function TwoWords(command: bytes, name: bytes): bytes {
    command + [SPACE] + name
  }

  lemma FirstOfTwoWords(command: bytes, name: bytes)
    requires Plain(command) && !EndsInBackslash(command)
    ensures Tokens(TwoWords(command, name)) == [command] + Tokens(name)
  {
    var tail := [SPACE] + name;
    assert TwoWords(command, name) == command + tail;
    EscapePlain(command);
    EscapeStarts(command, tail);
    WordOfEscaped(command, tail);
    TokensAfterSeparator(name, SPACE);
  }

  lemma SoleTokenSpaceFree(name: bytes)
    requires Tokens(name) == [name]
    ensures SPACE !in name
  {
    var t := SkipSpaces(name);
    TokenTurn(name, t, Word(t));
    assert Tokens(name)[0] == Word(t).word;
    WordWeight(t);
    SpaceFree(name);
  }

  /** Read as a single word, text with a space in it loses characters. */
  lemma SoleTokenShorter(name: bytes, t: bytes)
    requires Tokens(name) == [t] && SPACE in name
    ensures |t| < |name|
  {
    var u := SkipSpaces(name);
    TokenTurn(name, u, Word(u));
    assert Tokens(name)[0] == Word(u).word;
    WordWeight(u);
    SpaceFree(t);
    assert t + [] == t;
    if |t| == |name| {
      SameLengthSkip(name);
      WordVerbatim(u);
      assert false;
    }
  }

  lemma SameLengthSkip(s: bytes)
    requires |SkipSpaces(s)| == |s|
    ensures SkipSpaces(s) == s
  {
  }

  /** The client rebuilds the command line from an argument it has unescaped; the server
      reads the same two words back exactly when that argument has no space in it. */
  lemma RebuiltCommand(command: bytes, name: bytes)
    requires Plain(command) && !EndsInBackslash(command) && IsToken(name)
    ensures Tokens(TwoWords(command, name)) == [command, name] <==> SPACE !in name
  {
    FirstOfTwoWords(command, name);
    assert ([command] + Tokens(name))[1..] == Tokens(name) && [command, name][1..] == [name];
    if SPACE !in name {
      PlainIsSoleToken(name);
    } else if Tokens(name) == [name] {
      SoleTokenSpaceFree(name);
      assert false;
    }
  }

  /** The unescaped name "a b" reaches the server as two words. */
  lemma RebuiltCommandFails()
    ensures Tokens([97, BACKSLASH, SPACE, 98]) == [[97, SPACE, 98]]
    ensures Tokens([97, SPACE, 98]) == [[97], [98]]
  {
    assert Word([98 as byte]) == Scanned([98], []);
    assert Word([BACKSLASH, SPACE, 98]) == Scanned([SPACE, 98], []);
    assert Word([97, BACKSLASH, SPACE, 98]) == Scanned([97, SPACE, 98], []);
    assert Word([SPACE, 98]) == Scanned([], [SPACE, 98]);
    assert Word([97, SPACE, 98]) == Scanned([97], [SPACE, 98]);
    assert SkipSpaces([SPACE, 98]) == [98];
    assert Tokens([98 as byte]) == [[98]];
  }
}
