/** The glob language object paths are matched with: how a pattern's text becomes tokens, and
  * which paths the tokens accept when `*` and `?` may not cross a separator.
  */
module Glob {

  import opened Wrappers
  import opened Text

  datatype Specifier = Single(c: char) | Range(low: char, high: char)

  datatype Token =
    | Char(c: char)
    | AnyChar
    | AnySequence
    | AnyRecursive
    | AnyWithin(specifiers: seq<Specifier>)
    | AnyExcept(excluded: seq<Specifier>)

  // ---------- parsing ----------

  function Stars(pattern: string): (n: nat)
    ensures n <= |pattern|
    ensures pattern != "" && pattern[0] == '*' ==> n > 0
  {
    if pattern != "" && pattern[0] == '*' then 1 + Stars(pattern[1..]) else 0
  }

  /** The position of the first `]`. */
  function Close(text: string): (at: Option<nat>)
    ensures at.Some? ==> at.value < |text|
  {
    if text == "" then None
    else if text[0] == ']' then Some(0)
    else match Close(text[1..]) case None => None case Some(n) => Some(n + 1)
  }

  function Specifiers(text: string): seq<Specifier> {
    if text == "" then []
    else if |text| >= 3 && text[1] == '-' then [Range(text[0], text[2])] + Specifiers(text[3..])
    else [Single(text[0])] + Specifiers(text[1..])
  }

  /** A bracket class at the front: its token and how many characters it spans. */
  function ParseClass(pattern: string): (parsed: Option<(Token, nat)>)
    requires pattern != "" && pattern[0] == '['
    ensures parsed.Some? ==> 0 < parsed.value.1 <= |pattern|
  {
    if |pattern| >= 4 && pattern[1] == '!' then
      match Close(pattern[3..])
      case None => None
      case Some(n) => Some((AnyExcept(Specifiers(pattern[2..3 + n])), n + 4))
    else if |pattern| >= 3 && pattern[1] != '!' then
      match Close(pattern[2..])
      case None => None
      case Some(n) => Some((AnyWithin(Specifiers(pattern[1..2 + n])), n + 3))
    else None
  }

  function Prepend(token: Token, rest: Option<seq<Token>>): Option<seq<Token>> {
    match rest
    case None => None
    case Some(tokens) => Some([token] + tokens)
  }

  /** The tokens of a pattern, given the character before it; nothing for an invalid one.
    * Two stars stand for any number of whole segments and must fill a segment themselves. */
  function ParseGlob(previous: Option<char>, pattern: string): Option<seq<Token>>
    decreases |pattern|
  {
    if pattern == "" then Some([])
    else
      match pattern[0]
      case '?' => Prepend(AnyChar, ParseGlob(Some('?'), pattern[1..]))
      case '*' =>
        var n := Stars(pattern);
        if n > 2 then None
        else if n == 1 then Prepend(AnySequence, ParseGlob(Some('*'), pattern[1..]))
        else if previous != None && previous != Some('/') then None
        else if |pattern| == 2 then Some([AnyRecursive])
        else if pattern[2] == '/' then Prepend(AnyRecursive, ParseGlob(Some('/'), pattern[3..]))
        else None
      case '[' =>
        (match ParseClass(pattern)
         case None => None
         case Some((token, n)) => Prepend(token, ParseGlob(Some(']'), pattern[n..])))
      case c => Prepend(Char(c), ParseGlob(Some(c), pattern[1..]))
  }

  // ---------- matching ----------

  predicate Within(c: char, specifiers: seq<Specifier>) {
    exists i :: 0 <= i < |specifiers| &&
      match specifiers[i]
      case Single(d) => c == d
      case Range(low, high) => low <= c <= high
  }

  predicate TokenAccepts(token: Token, c: char) {
    match token
    case Char(d) => c == d
    case AnyChar => c != '/'
    case AnyWithin(specifiers) => c != '/' && Within(c, specifiers)
    case AnyExcept(excluded) => c != '/' && !Within(c, excluded)
    case _ => false
  }

  predicate Matches(tokens: seq<Token>, path: string)
    decreases |tokens|
  {
    if tokens == [] then path == ""
    else
      match tokens[0]
      case AnySequence => exists n :: 0 <= n <= |path| && '/' !in path[..n] && Matches(tokens[1..], path[n..])
      case AnyRecursive =>
        exists n :: 0 <= n <= |path| && (n == 0 || n == |path| || path[n - 1] == '/') && Matches(tokens[1..], path[n..])
      case token => path != "" && TokenAccepts(token, path[0]) && Matches(tokens[1..], path[1..])
  }

  // ---------- literals ----------

  predicate Special(c: char) {
    c == '?' || c == '*' || c == '[' || c == ']'
  }

  /** Escaping makes every special character a class of its own. */
  function EscapeChar(c: char): string {
    if Special(c) then ['[', c, ']'] else [c]
  }

  function Escape(text: string): string {
    EscapeAll(EscapeChar, text)
  }

  /** The token accepts one character only. */
  predicate Pins(token: Token, c: char) {
    token == Char(c) || (token == AnyWithin([Single(c)]) && c != '/')
  }

  predicate AllPin(tokens: seq<Token>, text: string) {
    |tokens| == |text| && forall i :: 0 <= i < |tokens| ==> Pins(tokens[i], text[i])
  }

  /** The token an escaped, or an ordinary, character is parsed to. */
  function Pin(c: char, escaped: bool): Token {
    if escaped && Special(c) then AnyWithin([Single(c)]) else Char(c)
  }

  lemma EscapedCharParses(previous: Option<char>, c: char, rest: string)
    ensures ParseGlob(previous, EscapeChar(c) + rest)
         == Prepend(Pin(c, true), ParseGlob(Some(if Special(c) then ']' else c), rest))
    ensures Pins(Pin(c, true), c)
  {
    var pattern := EscapeChar(c) + rest;
    if Special(c) {
      assert pattern[0] == '[' && pattern[1] == c && pattern[2] == ']' && pattern[3..] == rest;
      assert pattern[2..][0] == ']' && pattern[1..2] == [c];
      assert [c][1..] == "" && Specifiers("") == [];
      ConcatEmpty([Single(c)]);
      assert Specifiers([c]) == [Single(c)];
      assert Close(pattern[2..]) == Some(0);
      assert ParseClass(pattern) == Some((AnyWithin([Single(c)]), 3));
    } else {
      assert pattern[0] == c && pattern[1..] == rest;
    }
  }

  lemma PlainCharParses(previous: Option<char>, c: char, rest: string)
    requires c != '?' && c != '*' && c != '['
    ensures ParseGlob(previous, [c] + rest) == Prepend(Char(c), ParseGlob(Some(c), rest))
  {
    assert ([c] + rest)[1..] == rest;
  }

  lemma WithinOne(c: char, d: char)
    ensures Within(c, [Single(d)]) <==> c == d
  {
    assert [Single(d)][0] == Single(d);
  }

  /** Pinned tokens in front accept exactly their text in front. */
  lemma {:induction false} PinnedAhead(pinned: seq<Token>, text: string, rest: seq<Token>, path: string)
    requires AllPin(pinned, text)
    ensures Matches(pinned + rest, path) <==> text <= path && Matches(rest, path[|text|..])
  {
    if text == "" {
      assert pinned + rest == rest && path[0..] == path;
    } else {
      assert (pinned + rest)[0] == pinned[0] && (pinned + rest)[1..] == pinned[1..] + rest;
      assert Pins(pinned[0], text[0]);
      if path != "" {
        WithinOne(path[0], text[0]);
        assert TokenAccepts(pinned[0], path[0]) <==> path[0] == text[0];
        PinnedAhead(pinned[1..], text[1..], rest, path[1..]);
        PrefixByHead(text, path);
      }
    }
  }

  lemma PrefixByHead(text: string, path: string)
    requires text != "" && path != ""
    ensures text <= path <==> text[0] == path[0] && text[1..] <= path[1..]
    ensures |text| <= |path| ==> path[1..][|text[1..]|..] == path[|text|..]
  {
    if text[0] == path[0] && text[1..] <= path[1..] {
      HeadAndTail(text);
      HeadAndTail(path);
      assert forall i :: 0 < i < |text| ==> text[i] == text[1..][i - 1] && path[i] == path[1..][i - 1];
    }
  }

}
