/** The text form of a sort specification, `name`, `name:asc` or `name:desc` separated by
  * commas, as the `--sort-by` option reads it and as a specification displays itself.
  */
module SortText {

  import opened FirstOccurrences
  import opened SortOrder
  import opened Text
  import opened Wrappers

  datatype SortError = InvalidDirection(direction: string)

  // ---------- trimming ----------

  /** The characters Unicode calls white space. */
  predicate White(c: char) {
    || '\U{9}' <= c <= '\U{D}' || c == ' ' || c == '\U{85}' || c == '\U{A0}' || c == '\U{1680}'
    || '\U{2000}' <= c <= '\U{200A}' || c == '\U{2028}' || c == '\U{2029}' || c == '\U{202F}'
    || c == '\U{205F}' || c == '\U{3000}'
  }

  /** The 25 characters with the property White_Space (section 4.6 and PropList of the Unicode Character Database). */
  lemma WhiteExactly(c: char)
    ensures White(c) <==>
              (c as int) in [9, 10, 11, 12, 13, 32, 133, 160, 5760, 8192, 8193, 8194, 8195, 8196, 8197, 8198, 8199,
                             8200, 8201, 8202, 8232, 8233, 8239, 8287, 12288]
  {
  }

  function TrimStart(s: string): string {
    if s != "" && White(s[0]) then TrimStart(s[1..]) else s
  }

  function TrimEnd(s: string): string {
    if s != "" && White(s[|s| - 1]) then TrimEnd(s[..|s| - 1]) else s
  }

  function Trim(s: string): string {
    TrimEnd(TrimStart(s))
  }

  predicate Trimmed(s: string) {
    s == "" || (!White(s[0]) && !White(s[|s| - 1]))
  }

  lemma {:induction false} TrimStartStrips(s: string)
    ensures TrimStart(s) != "" ==> !White(TrimStart(s)[0])
    ensures forall c :: c in TrimStart(s) ==> c in s
  {
    if s != "" && White(s[0]) {
      TrimStartStrips(s[1..]);
    }
  }

  lemma {:induction false} TrimEndStrips(s: string)
    ensures TrimEnd(s) != "" ==> !White(TrimEnd(s)[|TrimEnd(s)| - 1]) && TrimEnd(s)[0] == s[0]
    ensures |TrimEnd(s)| <= |s| && forall c :: c in TrimEnd(s) ==> c in s
  {
    if s != "" && White(s[|s| - 1]) {
      TrimEndStrips(s[..|s| - 1]);
    }
  }

  lemma TrimStrips(s: string)
    ensures Trimmed(Trim(s)) && forall c :: c in Trim(s) ==> c in s
  {
    TrimStartStrips(s);
    TrimEndStrips(TrimStart(s));
  }

  predicate AllWhite(s: string) { forall i :: 0 <= i < |s| ==> White(s[i]) }

  lemma {:induction false} TrimStartCuts(s: string)
    ensures |TrimStart(s)| <= |s| && s[|s| - |TrimStart(s)|..] == TrimStart(s)
    ensures AllWhite(s[..|s| - |TrimStart(s)|])
  {
    if s != "" && White(s[0]) {
      TrimStartCuts(s[1..]);
      var k := |s| - |TrimStart(s)|;
      assert s[1..][k - 1..] == s[k..];
      assert forall i :: 0 < i < k ==> s[..k][i] == s[1..][..k - 1][i - 1];
    }
  }

  lemma {:induction false} TrimEndCuts(s: string)
    ensures |TrimEnd(s)| <= |s| && s[..|TrimEnd(s)|] == TrimEnd(s) && AllWhite(s[|TrimEnd(s)|..])
  {
    if s != "" && White(s[|s| - 1]) {
      var front := s[..|s| - 1];
      TrimEndCuts(front);
      assert front[..|TrimEnd(s)|] == s[..|TrimEnd(s)|];
      assert forall i :: |TrimEnd(s)| <= i < |s| - 1 ==> s[i] == front[|TrimEnd(s)|..][i - |TrimEnd(s)|];
    }
  }

  /** Trimming takes white space off the two ends and nothing else. */
  lemma TrimTakesOnlyWhite(s: string) returns (front: string, back: string)
    ensures AllWhite(front) && AllWhite(back) && s == front + (Trim(s) + back)
  {
    var middle := TrimStart(s);
    TrimStartCuts(s);
    TrimEndCuts(middle);
    front, back := s[..|s| - |middle|], middle[|Trim(s)|..];
    assert middle == Trim(s) + back;
    assert s == front + middle;
  }

  lemma {:induction false} WhiteInFront(front: string, s: string)
    requires AllWhite(front)
    ensures TrimStart(front + s) == TrimStart(s)
  {
    if front == "" {
      ConcatEmpty(s);
    } else {
      assert (front + s)[0] == front[0] && (front + s)[1..] == front[1..] + s;
      WhiteInFront(front[1..], s);
    }
  }

  lemma {:induction false} WhiteBehind(s: string, back: string)
    requires AllWhite(back)
    ensures TrimEnd(s + back) == TrimEnd(s)
    decreases |back|
  {
    if back == "" {
      ConcatEmpty(s);
    } else {
      var all := s + back;
      assert all[|all| - 1] == back[|back| - 1] && all[..|all| - 1] == s + back[..|back| - 1];
      WhiteBehind(s, back[..|back| - 1]);
    }
  }

  lemma {:induction false} TrimStartOfWhite(s: string)
    requires AllWhite(s)
    ensures TrimStart(s) == "" && TrimEnd(s) == ""
  {
    WhiteInFront(s, "");
    WhiteBehind("", s);
    ConcatEmpty(s);
  }

  lemma {:induction false} TrimStartBefore(s: string, back: string)
    requires AllWhite(back)
    ensures TrimStart(s + back) == if TrimStart(s) == "" then TrimStart(back) else TrimStart(s) + back
  {
    if s == "" {
      ConcatEmpty(back);
    } else {
      assert (s + back)[0] == s[0] && (s + back)[1..] == s[1..] + back;
      if White(s[0]) {
        TrimStartBefore(s[1..], back);
      }
    }
  }

  /** White space around a text does not change what is left of it. */
  lemma TrimIgnoresWhite(front: string, s: string, back: string)
    requires AllWhite(front) && AllWhite(back)
    ensures Trim(front + (s + back)) == Trim(s)
  {
    WhiteInFront(front, s + back);
    TrimStartBefore(s, back);
    TrimStartOfWhite(back);
    WhiteBehind(TrimStart(s), back);
  }

  lemma TrimKeeps(s: string)
    requires Trimmed(s)
    ensures Trim(s) == s
  {
  }

  // ---------- one part ----------

  /** The text before and after the first separator. */
  function SplitOnce(s: string, separator: char): Option<(string, string)> {
    if s == "" then None
    else if s[0] == separator then Some(("", s[1..]))
    else
      match SplitOnce(s[1..], separator)
      case None => None
      case Some((before, after)) => Some(([s[0]] + before, after))
  }

  lemma {:induction false} SplitOnceFinds(s: string, separator: char)
    ensures SplitOnce(s, separator).None? <==> separator !in s
    ensures SplitOnce(s, separator).Some? ==>
      var (before, after) := SplitOnce(s, separator).value;
      separator !in before && s == before + ([separator] + after)
  {
    if s != "" {
      HeadAndTail(s);
      if s[0] == separator {
        ConcatEmpty([separator] + s[1..]);
      } else {
        SplitOnceFinds(s[1..], separator);
        if SplitOnce(s[1..], separator).Some? {
          var (before, after) := SplitOnce(s[1..], separator).value;
          ConcatAssociates([s[0]], before, [separator] + after);
        }
      }
    }
  }

  lemma {:induction false} SplitOnceAt(before: string, separator: char, after: string)
    requires separator !in before
    ensures SplitOnce(before + ([separator] + after), separator) == Some((before, after))
  {
    if before == "" {
      ConcatEmpty([separator] + after);
      AfterHead(separator, after);
    } else {
      SplitOnceAt(before[1..], separator, after);
      assert (before + ([separator] + after))[1..] == before[1..] + ([separator] + after);
      HeadAndTail(before);
    }
  }

  function Lower(c: char): char {
    if 'A' <= c <= 'Z' then c - 'A' + 'a' else c
  }

  function LowerText(s: string): string {
    seq(|s|, i requires 0 <= i < |s| => Lower(s[i]))
  }

  function ParseDirection(text: string): Result<Direction, SortError> {
    var word := LowerText(Trim(text));
    if word == "desc" || word == "descending" then Success(Descending)
    else if word == "asc" || word == "ascending" then Success(Ascending)
    else Failure(InvalidDirection(word))
  }

  lemma {:induction false} TrimStartIgnoresCase(s: string)
    ensures TrimStart(UpperText(s)) == UpperText(TrimStart(s))
  {
    if s != "" && White(s[0]) {
      assert UpperText(s)[1..] == UpperText(s[1..]);
      TrimStartIgnoresCase(s[1..]);
    }
  }

  lemma {:induction false} TrimEndIgnoresCase(s: string)
    ensures TrimEnd(UpperText(s)) == UpperText(TrimEnd(s))
  {
    if s != "" && White(s[|s| - 1]) {
      assert UpperText(s)[..|s| - 1] == UpperText(s[..|s| - 1]);
      TrimEndIgnoresCase(s[..|s| - 1]);
    }
  }

  /** Case and surrounding white space never matter to a direction. */
  lemma DirectionIgnoresCase(text: string)
    ensures ParseDirection(UpperText(text)) == ParseDirection(text)
    ensures ParseDirection(Trim(text)) == ParseDirection(text)
  {
    TrimStartIgnoresCase(text);
    TrimEndIgnoresCase(TrimStart(text));
    assert LowerText(UpperText(Trim(text))) == LowerText(Trim(text));
    TrimStrips(text);
    TrimKeeps(Trim(text));
  }

  /** The long words mean what the short ones do. */
  lemma WordsAreDirections()
    ensures ParseDirection("desc") == ParseDirection("descending") == Success(Descending)
    ensures ParseDirection("asc") == ParseDirection("ascending") == Success(Ascending)
  {
    TrimKeeps("desc");
    TrimKeeps("descending");
    TrimKeeps("asc");
    TrimKeeps("ascending");
    assert LowerText("desc") == "desc" && LowerText("descending") == "descending";
    assert LowerText("asc") == "asc" && LowerText("ascending") == "ascending";
  }

  /** One part between commas, already trimmed and not empty. */
  function ParsePart(part: string): Result<SortColumn, SortError> {
    match SplitOnce(part, ':')
    case None => Success(Conventional(part, Ascending))
    case Some((name, direction)) =>
      match ParseDirection(direction)
      case Failure(error) => Failure(error)
      case Success(parsed) => Success(Conventional(Trim(name), parsed))
  }

  function ParseParts(parts: seq<string>): Result<seq<SortColumn>, SortError> {
    if parts == [] then Success([])
    else
      var part := Trim(parts[0]);
      if part == "" then ParseParts(parts[1..])
      else
        match ParsePart(part)
        case Failure(error) => Failure(error)
        case Success(column) =>
          match ParseParts(parts[1..])
          case Failure(error) => Failure(error)
          case Success(columns) => Success([column] + columns)
  }

  function Parsed(s: string): Result<seq<SortColumn>, SortError> {
    match ParseParts(Split(s, ','))
    case Failure(error) => Failure(error)
    case Success(columns) => Success(Unseen(columns, Name, {}))
  }

  /** Reads the parts in order, stopping at the first bad direction, then drops repeats. */
  method Parse(s: string) returns (result: Result<seq<SortColumn>, SortError>)
    ensures result == Parsed(s)
  {
    var columns := [];
    var parts := Split(s, ',');
    assert parts[0..] == parts;
    PrependNothing(ParseParts(parts));
    for i := 0 to |parts|
      invariant ParseParts(parts) == Prepend(columns, ParseParts(parts[i..]))
    {
      assert parts[i..][0] == parts[i] && parts[i..][1..] == parts[i + 1..];
      var part := Trim(parts[i]);
      if part != "" {
        var parsed := ParsePart(part);
        if parsed.Failure? {
          return Failure(parsed.error);
        }
        PrependOne(columns, parsed.value, ParseParts(parts[i + 1..]));
        columns := columns + [parsed.value];
      }
    }
    ConcatEmpty(columns);
    var kept := UniqueBy(columns, Name);
    result := Success(kept);
  }

  function Prepend(columns: seq<SortColumn>, rest: Result<seq<SortColumn>, SortError>)
    : Result<seq<SortColumn>, SortError>
  {
    match rest
    case Failure(error) => Failure(error)
    case Success(more) => Success(columns + more)
  }

  lemma PrependNothing(rest: Result<seq<SortColumn>, SortError>)
    ensures Prepend([], rest) == rest
  {
    if rest.Success? {
      ConcatEmpty(rest.value);
    }
  }

  lemma PrependOne(columns: seq<SortColumn>, column: SortColumn, rest: Result<seq<SortColumn>, SortError>)
    ensures Prepend(columns, Prepend([column], rest)) == Prepend(columns + [column], rest)
  {
    if rest.Success? {
      ConcatAssociates(columns, [column], rest.value);
    }
  }

  /** The `--by` option: names separated by commas, each trimmed, empty ones kept. */
  function PartitionColumns(option: Option<string>): seq<string> {
    match option
    case None => []
    case Some(text) =>
      var parts := Split(text, ',');
      seq(|parts|, i requires 0 <= i < |parts| => Trim(parts[i]))
  }

  /** A list of names survives the `--by` option exactly when no name holds a comma or white space at an end. */
  lemma PartitionColumnsExactly(names: seq<string>)
    requires names != []
    ensures PartitionColumns(Some(Join(names, ","))) == names
        <==> forall i :: 0 <= i < |names| ==> Trimmed(names[i]) && ',' !in names[i]
  {
    var parts := Split(Join(names, ","), ',');
    assert "," == [','];
    if PartitionColumns(Some(Join(names, ","))) == names {
      forall i | 0 <= i < |names| ensures Trimmed(names[i]) && ',' !in names[i] {
        assert names[i] == PartitionColumns(Some(Join(names, ",")))[i] == Trim(parts[i]);
        TrimStrips(parts[i]);
        assert parts[i] in parts;
      }
    }
    if forall i :: 0 <= i < |names| ==> Trimmed(names[i]) && ',' !in names[i] {
      SplitUndoesJoin(names, ',');
      forall i | 0 <= i < |names| ensures Trim(names[i]) == names[i] {
        TrimKeeps(names[i]);
      }
    }
  }

  /** The user's columns; an absent `--sort-by` option is an empty specification. */
  function UserColumns(sortBy: Option<string>): Result<seq<SortColumn>, SortError> {
    if sortBy.Some? then Parsed(sortBy.value) else Success([])
  }

  /** From the text of the two options to what a run sorts by. */
  method PlanOrder(strategy: Strategy, partitionBy: Option<string>, sortBy: Option<string>)
    returns (result: Result<Composition, SortError>)
    ensures result.Failure? <==> UserColumns(sortBy).Failure?
    ensures result.Failure? ==> result.error == UserColumns(sortBy).error
    ensures result.Success? ==>
      result.value == Composed(strategy, PartitionColumns(partitionBy), UserColumns(sortBy).value)
  {
    var spec: Option<SortSpec> := None;
    if sortBy.Some? {
      var parsed := Parse(sortBy.value);
      if parsed.Failure? {
        return Failure(parsed.error);
      }
      var given := new SortSpec(parsed.value);
      spec := Some(given);
    }
    var composition := Compose(strategy, PartitionColumns(partitionBy), spec);
    result := Success(composition);
  }

  /** However the two options are written, every partition's rows come out sorted as the user asked. */
  lemma OptionsSortEveryPartition(
    partitionBy: Option<string>, sortBy: Option<string>, rows: seq<Row>, i: nat, j: nat)
    requires UserColumns(sortBy).Success? && i < j < |rows|
    requires SortedBy(Composed(SortSingle, PartitionColumns(partitionBy), UserColumns(sortBy).value).full, rows)
    requires SamePartition(PartitionColumns(partitionBy), rows[i], rows[j])
    ensures Compare(UserColumns(sortBy).value, rows[i], rows[j]) <= 0
    ensures forall k :: i < k < j ==> SamePartition(PartitionColumns(partitionBy), rows[i], rows[k])
  {
    var partition, user := PartitionColumns(partitionBy), UserColumns(sortBy).value;
    FullComparison(SortSingle, partition, user, rows[i], rows[j]);
    forall k | i < k < j ensures SamePartition(partition, rows[i], rows[k]) {
      PartitionsAreContiguous(partition, user, rows, i, k, j);
    }
  }

  // ---------- white space ----------

  /** The same texts with white space around each of them. */
  predicate Padded(texts: seq<string>, padded: seq<string>) {
    && |texts| == |padded|
    && forall i :: 0 <= i < |texts| ==> PaddedText(texts[i], padded[i])
  }

  /** One text with white space around it. */
  predicate PaddedText(text: string, padded: string) {
    exists k ::
      0 <= k <= |padded| - |text|
      && AllWhite(padded[..k]) && padded[k..k + |text|] == text && AllWhite(padded[k + |text|..])
  }

  predicate WithoutCommas(texts: seq<string>) {
    forall i :: 0 <= i < |texts| ==> ',' !in texts[i]
  }

  lemma PaddedTrimsAlike(text: string, padded: string)
    requires PaddedText(text, padded)
    ensures Trim(padded) == Trim(text)
  {
    var k :| 0 <= k <= |padded| - |text|
      && AllWhite(padded[..k]) && padded[k..k + |text|] == text && AllWhite(padded[k + |text|..]);
    assert padded == padded[..k] + (text + padded[k + |text|..]);
    TrimIgnoresWhite(padded[..k], text, padded[k + |text|..]);
  }

  lemma {:induction false} PaddedPartsParseAlike(texts: seq<string>, padded: seq<string>)
    requires Padded(texts, padded)
    ensures ParseParts(padded) == ParseParts(texts)
  {
    if texts != [] {
      PaddedTrimsAlike(texts[0], padded[0]);
      PaddedPartsParseAlike(texts[1..], padded[1..]);
    }
  }

  /** White space around the parts of a specification, or around the names of the `--by` option, changes
    * neither. */
  lemma WhiteSpaceAroundParts(texts: seq<string>, padded: seq<string>)
    requires texts != [] && Padded(texts, padded) && WithoutCommas(texts) && WithoutCommas(padded)
    ensures Parsed(Join(padded, ",")) == Parsed(Join(texts, ","))
    ensures PartitionColumns(Some(Join(padded, ","))) == PartitionColumns(Some(Join(texts, ",")))
  {
    assert "," == [','];
    SplitUndoesJoin(texts, ',');
    SplitUndoesJoin(padded, ',');
    PaddedPartsParseAlike(texts, padded);
    forall i | 0 <= i < |texts| ensures Trim(padded[i]) == Trim(texts[i]) {
      PaddedTrimsAlike(texts[i], padded[i]);
    }
  }

  /** The column a name and a direction stand for, whatever white space is around either of them. */
  lemma WhiteSpaceAroundTheName(front: string, name: string, back: string, direction: string)
    requires AllWhite(front) && AllWhite(back) && ':' !in name && Trimmed(name)
    ensures var part := front + (name + (back + ([':'] + direction)));
      ParsePart(part) ==
      match ParseDirection(direction)
      case Failure(error) => Failure(error)
      case Success(parsed) => Success(Conventional(name, parsed))
  {
    var before := front + (name + back);
    ConcatAssociates(name, back, [':'] + direction);
    ConcatAssociates(front, name + back, [':'] + direction);
    SplitOnceAt(before, ':', direction);
    TrimIgnoresWhite(front, name, back);
    TrimKeeps(name);
  }

  lemma TrimmedIsPadded(text: string)
    ensures PaddedText(Trim(text), text) && PaddedWord(LowerText(Trim(text)), text)
  {
    var front, back := TrimTakesOnlyWhite(text);
    var k, word := |front|, Trim(text);
    assert text[..k] == front && text[k..k + |word|] == word && text[k + |word|..] == back;
  }

  lemma WordDecides(word: string, text: string)
    requires word != "" && forall i :: 0 <= i < |word| ==> 'a' <= word[i] <= 'z'
    ensures PaddedWord(word, text) <==> LowerText(Trim(text)) == word
  {
    TrimmedIsPadded(text);
    if PaddedWord(word, text) {
      PaddedWordIsTrimmed(word, text);
    }
  }

  /** The four words, in any case of their letters and with white space around them, give the two directions;
    * nothing else does, and it is reported without that white space and in lower case. */
  lemma DirectionsExactly(text: string)
    ensures ParseDirection(text) == Success(Descending) <==> PaddedWord("desc", text) || PaddedWord("descending", text)
    ensures ParseDirection(text) == Success(Ascending) <==> PaddedWord("asc", text) || PaddedWord("ascending", text)
    ensures ParseDirection(text).Failure? ==>
              exists word :: PaddedText(word, text) && ParseDirection(text).error == InvalidDirection(LowerText(word))
  {
    WordDecides("desc", text);
    WordDecides("descending", text);
    WordDecides("asc", text);
    WordDecides("ascending", text);
    TrimmedIsPadded(text);
  }

  /** A text that is a word, in some case of its letters, with white space around it. */
  predicate PaddedWord(word: string, text: string) {
    exists k ::
      0 <= k <= |text| - |word|
      && AllWhite(text[..k]) && LowerText(text[k..k + |word|]) == word && AllWhite(text[k + |word|..])
  }

  lemma LettersAreNotWhite(word: string, text: string)
    requires LowerText(text) == word && word != "" && forall i :: 0 <= i < |word| ==> 'a' <= word[i] <= 'z'
    ensures text != "" && !White(text[0]) && !White(text[|text| - 1])
  {
    assert |text| == |word|;
    assert Lower(text[0]) == word[0] && Lower(text[|text| - 1]) == word[|word| - 1];
  }

  lemma PaddedWordIsTrimmed(word: string, text: string)
    requires PaddedWord(word, text) && word != "" && forall i :: 0 <= i < |word| ==> 'a' <= word[i] <= 'z'
    ensures LowerText(Trim(text)) == word
  {
    var k :| 0 <= k <= |text| - |word|
      && AllWhite(text[..k]) && LowerText(text[k..k + |word|]) == word && AllWhite(text[k + |word|..]);
    var middle := text[k..k + |word|];
    assert text == text[..k] + (middle + text[k + |word|..]);
    TrimIgnoresWhite(text[..k], middle, text[k + |word|..]);
    LettersAreNotWhite(word, middle);
    TrimKeeps(middle);
  }

  // ---------- display ----------

  function DisplayColumn(column: SortColumn): string {
    if column.direction.Descending? then column.name + ":desc" else column.name
  }

  function DisplayParts(columns: seq<SortColumn>): seq<string> {
    seq(|columns|, i requires 0 <= i < |columns| => DisplayColumn(columns[i]))
  }

  function Display(columns: seq<SortColumn>): string {
    Join(DisplayParts(columns), ",")
  }

  // ---------- what parsing yields ----------

  predicate TidyColumn(column: SortColumn) {
    && column == Conventional(column.name, column.direction)
    && ',' !in column.name && ':' !in column.name && Trimmed(column.name)
  }

  predicate AllTidy(columns: seq<SortColumn>) {
    forall i :: 0 <= i < |columns| ==> TidyColumn(columns[i])
  }

  ghost predicate Tidy(columns: seq<SortColumn>) {
    AllTidy(columns) && Distinct(columns, Name)
  }

  lemma PartIsTidy(part: string)
    requires Trimmed(part) && ',' !in part && ParsePart(part).Success?
    ensures TidyColumn(ParsePart(part).value)
  {
    SplitOnceFinds(part, ':');
    if SplitOnce(part, ':').Some? {
      TrimStrips(SplitOnce(part, ':').value.0);
    }
  }

  lemma {:induction false} PartsAreTidy(parts: seq<string>)
    requires forall i :: 0 <= i < |parts| ==> ',' !in parts[i]
    requires ParseParts(parts).Success?
    ensures AllTidy(ParseParts(parts).value)
  {
    if parts != [] {
      PartsAreTidy(parts[1..]);
      TrimStrips(parts[0]);
      if Trim(parts[0]) != "" {
        PartIsTidy(Trim(parts[0]));
      }
    }
  }

  lemma {:induction false} UnseenKeepsTidy(columns: seq<SortColumn>, seen: set<string>)
    requires AllTidy(columns)
    ensures AllTidy(Unseen(columns, Name, seen))
  {
    if columns != [] {
      if Name(columns[0]) in seen {
        UnseenKeepsTidy(columns[1..], seen);
      } else {
        UnseenKeepsTidy(columns[1..], seen + {Name(columns[0])});
      }
    }
  }

  /** Whatever text is read, the specification names no column twice, carries the conventional
    * null placement and holds trimmed names free of both separators. */
  lemma ParsedIsTidy(s: string)
    requires Parsed(s).Success?
    ensures Tidy(Parsed(s).value)
  {
    var parts := Split(s, ',');
    PartsAreTidy(parts);
    UnseenKeepsTidy(ParseParts(parts).value, {});
    UnseenIsDistinct(ParseParts(parts).value, Name, {});
  }

  // ---------- the round trip ----------

  /** An ascending column without a name displays as nothing, and nothing is skipped. */
  predicate Invisible(column: SortColumn) {
    column.name == "" && column.direction.Ascending?
  }

  function Visible(columns: seq<SortColumn>): seq<SortColumn> {
    if columns == [] then []
    else if Invisible(columns[0]) then Visible(columns[1..])
    else [columns[0]] + Visible(columns[1..])
  }

  lemma DisplayColumnParses(column: SortColumn)
    requires TidyColumn(column) && !Invisible(column)
    ensures ',' !in DisplayColumn(column) && Trim(DisplayColumn(column)) == DisplayColumn(column) != ""
    ensures ParsePart(DisplayColumn(column)) == Success(column)
  {
    var text := DisplayColumn(column);
    if column.direction.Descending? {
      assert ":desc" == [':'] + "desc";
      assert text[|text| - 1] == 'c' && (column.name != "" ==> text[0] == column.name[0]);
      SplitOnceAt(column.name, ':', "desc");
      TrimKeeps(column.name);
      TrimKeeps("desc");
      assert LowerText("desc") == "desc";
    } else {
      SplitOnceFinds(text, ':');
    }
    TrimKeeps(text);
  }

  lemma {:induction false} DisplayPartsParse(columns: seq<SortColumn>)
    requires AllTidy(columns)
    ensures ParseParts(DisplayParts(columns)) == Success(Visible(columns))
  {
    if columns != [] {
      var parts := DisplayParts(columns);
      assert parts[1..] == DisplayParts(columns[1..]);
      DisplayPartsParse(columns[1..]);
      if Invisible(columns[0]) {
        TrimKeeps("");
      } else {
        DisplayColumnParses(columns[0]);
      }
    }
  }

  lemma {:induction false} VisibleCarriesLess(columns: seq<SortColumn>, name: string)
    requires Carried(name, Visible(columns), Name)
    ensures Carried(name, columns, Name)
  {
    if columns != [] {
      Later(name, columns, Name);
      if !Invisible(columns[0]) {
        Later(name, Visible(columns), Name);
      }
      if Carried(name, Visible(columns[1..]), Name) {
        VisibleCarriesLess(columns[1..], name);
      }
    }
  }

  lemma {:induction false} VisibleIsDistinct(columns: seq<SortColumn>)
    requires Distinct(columns, Name)
    ensures Distinct(Visible(columns), Name)
  {
    if columns != [] {
      var name := Name(columns[0]);
      VisibleIsDistinct(columns[1..]);
      HeadIsNotLater(columns);
      if Carried(name, Visible(columns[1..]), Name) {
        VisibleCarriesLess(columns[1..], name);
      }
      DistinctOneMore(columns[0], Visible(columns[1..]), Name);
    }
  }

  lemma HeadIsNotLater(columns: seq<SortColumn>)
    requires columns != [] && Distinct(columns, Name)
    ensures !Carried(Name(columns[0]), columns[1..], Name)
  {
    assert forall n :: 0 <= n < |columns[1..]| ==> columns[1..][n] == columns[n + 1];
  }

  lemma {:induction false} VisibleIsAll(columns: seq<SortColumn>)
    ensures |Visible(columns)| <= |columns|
    ensures Visible(columns) == columns <==> forall i :: 0 <= i < |columns| ==> !Invisible(columns[i])
  {
    if columns != [] {
      VisibleIsAll(columns[1..]);
      HeadAndTail(columns);
    }
  }

  lemma {:induction false} DistinctIsUnseen(columns: seq<SortColumn>, seen: set<string>)
    requires Distinct(columns, Name) && forall i :: 0 <= i < |columns| ==> columns[i].name !in seen
    ensures Unseen(columns, Name, seen) == columns
  {
    if columns != [] {
      DistinctIsUnseen(columns[1..], seen + {columns[0].name});
    }
  }

  /** Reading a displayed specification gives back its visible columns. */
  lemma DisplayParses(columns: seq<SortColumn>)
    requires Tidy(columns)
    ensures Parsed(Display(columns)) == Success(Visible(columns))
  {
    DisplaySplits(columns);
    DisplayPartsParse(columns);
    VisibleIsDistinct(columns);
    DistinctIsUnseen(Visible(columns), {});
  }

  lemma DisplaySplits(columns: seq<SortColumn>)
    requires AllTidy(columns)
    ensures ParseParts(Split(Display(columns), ',')) == ParseParts(DisplayParts(columns))
  {
    if columns == [] {
      TrimKeeps("");
      assert ParseParts([""]) == ParseParts([""][1..]);
    } else {
      forall i | 0 <= i < |columns| ensures ',' !in DisplayParts(columns)[i] {
        assert TidyColumn(columns[i]);
      }
      SplitUndoesJoin(DisplayParts(columns), ',');
      assert [','] == ",";
    }
  }

  /** A specification survives display and parsing exactly when it is tidy and every ascending
    * column has a name. */
  lemma RoundTripExactly(columns: seq<SortColumn>)
    ensures Parsed(Display(columns)) == Success(columns)
        <==> Tidy(columns) && forall i :: 0 <= i < |columns| ==> !Invisible(columns[i])
  {
    if Parsed(Display(columns)) == Success(columns) {
      ParsedIsTidy(Display(columns));
    }
    if Tidy(columns) {
      DisplayParses(columns);
      VisibleIsAll(columns);
    }
  }

  /** Text can denote a column its display loses. */
  lemma UnnamedAscendingIsLost()
    ensures Parsed(":asc") == Success([Conventional("", Ascending)])
    ensures Parsed(Display([Conventional("", Ascending)])) == Success([])
  {
    UnnamedAscendingParses();
    OnePartParses(":asc", Conventional("", Ascending));
    DisplayParses([Conventional("", Ascending)]);
  }

  lemma OnePartParses(part: string, column: SortColumn)
    requires ',' !in part && Trim(part) == part != "" && ParsePart(part) == Success(column)
    ensures Parsed(part) == Success([column])
  {
    SplitWithoutSeparator(part, ',');
    assert ParseParts([part][1..]) == Success([]);
    DistinctIsUnseen([column], {});
  }

  lemma UnnamedAscendingParses()
    ensures Trim(":asc") == ":asc" && ParsePart(":asc") == Success(Conventional("", Ascending))
  {
    TrimKeeps("");
    TrimKeeps("asc");
    TrimKeeps(":asc");
    SplitOnceAt("", ':', "asc");
    assert "" + ([':'] + "asc") == ":asc";
    assert LowerText("asc") == "asc";
  }

}
