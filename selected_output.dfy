// PhreeqcSelectedOutputParser (poet/src/SelectedOutputParser.cpp): finds the
// SELECTED_OUTPUT and USER_PUNCH blocks of an input script, keeps them as one
// string that can be replayed on another IPhreeqc instance, and reads the
// column headings and the values PHREEQC prints as tab-separated selected
// output.

module SelectedOutput {
  import opened Values

  // ------------------------------------------------------------ std::getline

  /** Position of the first d in s; |s| when there is none. */
  function FindChar(s: string, d: char): (i: nat)
    ensures i <= |s| && (i < |s| ==> s[i] == d)
    ensures forall k :: 0 <= k < i ==> s[k] != d
  {
    if s == [] || s[0] == d then 0 else 1 + FindChar(s[1..], d)
  }

  /**
   * The pieces successive std::getline(stream, piece, d) calls read: s cut
   * at every d, with no empty piece after a final d.
   */
  function Split(s: string, d: char): (r: seq<string>)
    ensures forall k :: 0 <= k < |r| ==> d !in r[k]
    decreases |s|
  {
    if s == [] then []
    else
      var i := FindChar(s, d);
      if i == |s| then [s] else [s[..i]] + Split(s[i + 1..], d)
  }

  /** The pieces, each followed by d. */
  function Joined(pieces: seq<string>, d: char): string
  {
    if pieces == [] then [] else pieces[0] + [d] + Joined(pieces[1..], d)
  }

  lemma JoinedCons(piece: string, pieces: seq<string>, d: char)
    ensures Joined([piece] + pieces, d) == piece + [d] + Joined(pieces, d)
  {
    assert ([piece] + pieces)[1..] == pieces;
  }

  /**
   * Writing the pieces back, each with its delimiter, restores s, plus the
   * final delimiter s did not have.
   */
  lemma {:induction false} JoinSplit(s: string, d: char)
    ensures Joined(Split(s, d), d) == if s == [] || s[|s| - 1] == d then s else s + [d]
    decreases |s|
  {
    if s != [] {
      var i := FindChar(s, d);
      if i < |s| {
        var head, rest := s[..i], s[i + 1..];
        assert s == head + [d] + rest;
        JoinedCons(head, Split(rest, d), d);
        JoinSplit(rest, d);
        if rest != [] {
          assert rest[|rest| - 1] == s[|s| - 1];
        }
      } else {
        JoinedCons(s, [], d);
      }
    }
  }

  // ------------------------------------------------------------ lines by position

  /** A line of the script starts at m: the first character, or one after a newline. */
  predicate LineStart(s: string, m: nat)
  {
    m < |s| && (m == 0 || s[m - 1] == '\n')
  }

  /** The line std::getline reads from position pos on: up to the next newline or the end. */
  function LineAt(s: string, pos: nat): (line: string)
    requires pos <= |s|
    ensures pos + |line| <= |s| && line == s[pos..pos + |line|] && '\n' !in line
    ensures pos + |line| < |s| ==> s[pos + |line|] == '\n'
  {
    s[pos..pos + FindChar(s[pos..], '\n')]
  }

  /** The loop's `current_pos += line.size() + 1`. */
  function Next(s: string, pos: nat): nat
    requires pos <= |s|
  {
    pos + |LineAt(s, pos)| + 1
  }

  /** The position after a line is the next line start, and no line starts inside the line. */
  lemma NextStart(s: string, pos: nat)
    requires pos <= |s|
    ensures Next(s, pos) < |s| ==> LineStart(s, Next(s, pos))
    ensures forall m :: pos < m < Next(s, pos) ==> !LineStart(s, m)
  {
    var line := LineAt(s, pos);
    forall m: nat | pos < m < Next(s, pos)
      ensures !LineStart(s, m)
    {
      if m < |s| {
        assert s[m - 1] == line[m - 1 - pos];
      }
    }
  }

  // ------------------------------------------------------------ line classes

  predicate BlankChar(c: char)
  {
    c == ' ' || c == '\t' || c == '\r'
  }

  /** find_first_not_of(" \t\r"): |line| when the line is blank. */
  function FirstNonBlank(line: string): (p: nat)
    ensures p <= |line| && (p < |line| ==> !BlankChar(line[p]))
    ensures forall k :: 0 <= k < p ==> BlankChar(line[k])
  {
    if line == [] || !BlankChar(line[0]) then 0 else 1 + FirstNonBlank(line[1..])
  }

  /**
   * std::regex_search(line, "^" + keyword + "*$"): the keyword with its last
   * character repeated any number of times, none included. Neither keyword
   * the parser looks for holds a regex metacharacter.
   */
  predicate KeywordLine(line: string, keyword: string)
    requires keyword != []
  {
    var n := |keyword| - 1;
    n <= |line| && line[..n] == keyword[..n] &&
    forall k :: n <= k < |line| ==> line[k] == keyword[n]
  }

  /** std::regex_search(text, "^[A-Z]+.*$"): a capital first and no carriage return. */
  predicate Capitalised(text: string)
  {
    text != [] && 'A' <= text[0] <= 'Z' && '\r' !in text
  }

  /** A line that (re)starts the block: not blank, and a keyword line. */
  predicate Opens(line: string, keyword: string)
    requires keyword != []
  {
    FirstNonBlank(line) < |line| && KeywordLine(line, keyword)
  }

  /** A line that ends a started block: not blank, not a keyword line, capitalised once left-trimmed. */
  predicate Closes(line: string, keyword: string)
    requires keyword != []
  {
    FirstNonBlank(line) < |line| && !KeywordLine(line, keyword) &&
    Capitalised(line[FirstNonBlank(line)..])
  }

  /** The first line starting at or after pos that opens the block. */
  function FirstOpen(s: string, keyword: string, pos: nat): (r: Option<nat>)
    requires keyword != [] && (pos < |s| ==> LineStart(s, pos))
    ensures r.Some? ==> pos <= r.value && LineStart(s, r.value) && Opens(LineAt(s, r.value), keyword)
    ensures forall m :: pos <= m < (if r.Some? then r.value else |s|) && LineStart(s, m) ==>
      !Opens(LineAt(s, m), keyword)
    decreases |s| - pos
  {
    if pos >= |s| then None
    else if Opens(LineAt(s, pos), keyword) then Some(pos)
    else
      NextStart(s, pos);
      FirstOpen(s, keyword, Next(s, pos))
  }

  /** The first line starting at or after pos that closes the block. */
  function FirstClose(s: string, keyword: string, pos: nat): (r: Option<nat>)
    requires keyword != [] && (pos < |s| ==> LineStart(s, pos))
    ensures r.Some? ==> pos <= r.value && LineStart(s, r.value) && Closes(LineAt(s, r.value), keyword)
    ensures forall m :: pos <= m < (if r.Some? then r.value else |s|) && LineStart(s, m) ==>
      !Closes(LineAt(s, m), keyword)
    decreases |s| - pos
  {
    if pos >= |s| then None
    else if Closes(LineAt(s, pos), keyword) then Some(pos)
    else
      NextStart(s, pos);
      FirstClose(s, keyword, Next(s, pos))
  }

  /** The last line starting at or after pos and before upto that opens the block. */
  function LastOpen(s: string, keyword: string, pos: nat, upto: nat): (r: Option<nat>)
    requires keyword != [] && (pos < |s| ==> LineStart(s, pos))
    ensures r.Some? ==> pos <= r.value < upto && LineStart(s, r.value) && Opens(LineAt(s, r.value), keyword)
    ensures forall m :: (if r.Some? then r.value + 1 else pos) <= m < upto && LineStart(s, m) ==>
      !Opens(LineAt(s, m), keyword)
    decreases |s| - pos
  {
    if pos >= |s| || pos >= upto then None
    else
      NextStart(s, pos);
      var rest := LastOpen(s, keyword, Next(s, pos), upto);
      if rest.Some? then rest
      else if Opens(LineAt(s, pos), keyword) then Some(pos)
      else None
  }

  lemma FirstOpenIs(s: string, keyword: string, k: nat)
    requires keyword != [] && LineStart(s, k) && Opens(LineAt(s, k), keyword)
    requires forall m :: 0 <= m < k && LineStart(s, m) ==> !Opens(LineAt(s, m), keyword)
    ensures FirstOpen(s, keyword, 0) == Some(k)
  {
  }

  lemma {:induction false} FirstCloseIs(s: string, keyword: string, pos: nat, k: nat)
    requires keyword != [] && (pos < |s| ==> LineStart(s, pos))
    requires pos <= k && LineStart(s, k) && Closes(LineAt(s, k), keyword)
    requires forall m :: pos <= m < k && LineStart(s, m) ==> !Closes(LineAt(s, m), keyword)
    ensures FirstClose(s, keyword, pos) == Some(k)
    decreases k - pos
  {
    if pos < k {
      NextStart(s, pos);
      FirstCloseIs(s, keyword, Next(s, pos), k);
    }
  }

  lemma LastOpenIs(s: string, keyword: string, pos: nat, upto: nat, k: nat)
    requires keyword != [] && (pos < |s| ==> LineStart(s, pos))
    requires pos <= k < upto && LineStart(s, k) && Opens(LineAt(s, k), keyword)
    requires forall m :: k < m < upto && LineStart(s, m) ==> !Opens(LineAt(s, m), keyword)
    ensures LastOpen(s, keyword, pos, upto) == Some(k)
  {
  }

  // ------------------------------------------------------------ getBlockByKeyword

  /** size_t arithmetic wraps modulo 2^64. */
  const SizeMod: int := 0x1_0000_0000_0000_0000

  /** block_end - block_start + 1, computed in size_t (see CountIsModular). */
  function Count(blockEnd: int, blockStart: int): nat
  {
    var n := blockEnd - blockStart + 1;
    if 0 <= n < SizeMod then n
    else if -SizeMod <= n < 0 then n + SizeMod
    else n % SizeMod
  }

  /** Count is the difference reduced modulo 2^64, as unsigned subtraction and addition give it. */
  lemma CountIsModular(blockEnd: int, blockStart: int)
    ensures Count(blockEnd, blockStart) == (blockEnd - blockStart + 1) % SizeMod
  {
  }

  /** std::string(s, pos, count): at most count characters from pos on. */
  function Substr(s: string, pos: nat, count: nat): string
    requires pos <= |s|
  {
    s[pos..pos + (if count < |s| - pos then count else |s| - pos)]
  }

  /**
   * Where the block lies: the start of its last opening line before the
   * closing line, and the start of the closing line when there is one.
   */
  datatype Bounds = Bounds(start: nat, close: Option<nat>)

  /** Where the block's text may run to: the closing line, or the end of the script. */
  function End(s: string, b: Bounds): nat
  {
    if b.close.Some? then b.close.value else |s|
  }

  /**
   * The block of `keyword` in the script s, None when no line opens it.
   * Between its opening line and its end no line opens or closes it.
   */
  function BlockBounds(s: string, keyword: string): (r: Option<Bounds>)
    requires keyword != []
    ensures r.None? <==> forall m :: 0 <= m < |s| && LineStart(s, m) ==> !Opens(LineAt(s, m), keyword)
    ensures r.Some? ==> LineStart(s, r.value.start) && Opens(LineAt(s, r.value.start), keyword)
    ensures r.Some? && r.value.close.Some? ==>
      Next(s, r.value.start) <= r.value.close.value && LineStart(s, r.value.close.value) &&
      Closes(LineAt(s, r.value.close.value), keyword)
  {
    match FirstOpen(s, keyword, 0)
    case None => None
    case Some(first) =>
      NextStart(s, first);
      var close := FirstClose(s, keyword, Next(s, first));
      var bound := if close.Some? then close.value else |s|;
      var last := LastOpen(s, keyword, first, bound);
      assert last.Some? by {
        assert first < bound;
      }
      NextStart(s, last.value);
      Some(Bounds(last.value, close))
  }

  /** Between the block's opening line and its end no line opens or closes it. */
  lemma BlockQuiet(s: string, keyword: string)
    requires keyword != [] && BlockBounds(s, keyword).Some?
    ensures var b := BlockBounds(s, keyword).value;
      forall m :: b.start < m < End(s, b) && LineStart(s, m) ==>
        !Opens(LineAt(s, m), keyword) && !Closes(LineAt(s, m), keyword)
  {
    var first := FirstOpen(s, keyword, 0).value;
    NextStart(s, first);
  }

  /**
   * The text getBlockByKeyword cuts out of the input for the bounds it
   * found: from the opening line's start, block_end - block_start + 1
   * characters computed in size_t, block_end left at 0 without a closing line.
   */
  function Cut(input: string, b: Option<Bounds>): string
    requires b.Some? ==> b.value.start <= |input|
  {
    match b
    case None => ""
    case Some(Bounds(start, close)) =>
      var blockEnd := if close.Some? then close.value - 1 else 0;
      Substr(input, start, Count(blockEnd, start))
  }

  /** getBlockByKeyword(input_script, keyword). */
  function Block(input: string, keyword: string): string
    requires keyword != []
  {
    Cut(input, BlockBounds(input, keyword))
  }

  /**
   * What the line loop of getBlockByKeyword knows at line start `pos`: no
   * earlier line opened the block, or the block was first opened at `first`
   * and last (re)opened at `start`, with no closing line after `first`.
   */
  predicate Scanned(s: string, keyword: string, pos: nat, found: bool, first: nat, start: nat)
    requires keyword != []
  {
    (pos < |s| ==> LineStart(s, pos)) &&
    (!found ==> forall m :: 0 <= m < pos && LineStart(s, m) ==> !Opens(LineAt(s, m), keyword)) &&
    (found ==>
      first <= start < pos && FirstOpen(s, keyword, 0) == Some(first) &&
      LineStart(s, start) && Opens(LineAt(s, start), keyword) &&
      (forall m :: start < m < pos && LineStart(s, m) ==> !Opens(LineAt(s, m), keyword)) &&
      (forall m :: first < m < pos && LineStart(s, m) ==> !Closes(LineAt(s, m), keyword)))
  }

  /**
   * The line loop of getBlockByKeyword: blank lines are skipped, a keyword
   * line (re)sets the start, and the first capitalised line after the start
   * ends the block.
   */
  method ScanLines(input: string, keyword: string) returns (found: bool, blockStart: nat, blockEnd: int)
    requires keyword != []
    ensures found <==> BlockBounds(input, keyword).Some?
    ensures found ==> blockStart == BlockBounds(input, keyword).value.start
    ensures found ==> blockEnd == match BlockBounds(input, keyword).value.close
                                  case None => 0
                                  case Some(c) => c - 1
  {
    found := false;
    blockStart, blockEnd := 0, 0;
    var stopped := false;
    var pos := 0;
    ghost var first: nat := 0;
    while pos < |input| && !stopped
      invariant Scanned(input, keyword, pos, found, first, blockStart)
      invariant stopped ==> found && pos < |input| && Closes(LineAt(input, pos), keyword) && blockEnd == pos - 1
      invariant !stopped ==> blockEnd == 0
      decreases |input| - pos, if stopped then 0 else 1
    {
      ghost var before := (found, first, blockStart);
      var line := LineAt(input, pos);
      var p := FirstNonBlank(line);
      if p == |line| {
      } else if KeywordLine(line, keyword) {
        if !found {
          first := pos;
        }
        blockStart, found := pos, true;
      } else if !found {
      } else if !Capitalised(line[p..]) {
      } else {
        blockEnd := pos - 1;
        stopped := true;
      }
      if !stopped {
        ScanStep(input, keyword, pos, before.0, before.1, before.2, found, first, blockStart);
        pos := pos + |line| + 1;
      }
    }
    ScanDone(input, keyword, pos, found, first, blockStart, stopped, blockEnd);
  }

  /** One line read without stopping: the loop's knowledge moves to the next line start. */
  lemma ScanStep(s: string, keyword: string, pos: nat, found: bool, first: nat, start: nat,
                 found': bool, first': nat, start': nat)
    requires keyword != [] && pos < |s|
    requires Scanned(s, keyword, pos, found, first, start)
    requires if Opens(LineAt(s, pos), keyword)
      then found' && start' == pos && first' == (if found then first else pos)
      else found' == found && start' == start && first' == first && (found ==> !Closes(LineAt(s, pos), keyword))
    ensures Scanned(s, keyword, Next(s, pos), found', first', start')
  {
    NextStart(s, pos);
    var opens := Opens(LineAt(s, pos), keyword);
    if found {
      NoOpenUpTo(s, keyword, if opens then pos + 1 else start + 1, pos);
      NoCloseUpTo(s, keyword, first + 1, pos);
    } else if opens {
      FirstOpenIs(s, keyword, pos);
      NoOpenUpTo(s, keyword, pos + 1, pos);
      NoCloseUpTo(s, keyword, pos + 1, pos);
    } else {
      NoOpenUpTo(s, keyword, 0, pos);
    }
  }

  /** When the loop ends, what it found is the block's bounds. */
  lemma ScanDone(s: string, keyword: string, pos: nat, found: bool, first: nat, start: nat, stopped: bool, blockEnd: int)
    requires keyword != [] && Scanned(s, keyword, pos, found, first, start)
    requires stopped ==> found && pos < |s| && Closes(LineAt(s, pos), keyword) && blockEnd == pos - 1
    requires !stopped ==> |s| <= pos && blockEnd == 0
    ensures found <==> BlockBounds(s, keyword).Some?
    ensures found ==> start == BlockBounds(s, keyword).value.start
    ensures found ==> blockEnd == match BlockBounds(s, keyword).value.close
                                  case None => 0
                                  case Some(c) => c - 1
  {
    if found {
      NextStart(s, first);
      if stopped {
        FirstCloseIs(s, keyword, Next(s, first), pos);
      }
      LastOpenIs(s, keyword, first, if stopped then pos else |s|, start);
    }
  }

  /** One more line read: no line from lo on opens the block up to the next line start. */
  lemma NoOpenUpTo(s: string, keyword: string, lo: nat, pos: nat)
    requires keyword != [] && LineStart(s, pos)
    requires forall m :: lo <= m < pos && LineStart(s, m) ==> !Opens(LineAt(s, m), keyword)
    requires lo <= pos ==> !Opens(LineAt(s, pos), keyword)
    ensures forall m :: lo <= m < Next(s, pos) && LineStart(s, m) ==> !Opens(LineAt(s, m), keyword)
  {
    NextStart(s, pos);
  }

  /** One more line read: no line from lo on closes the block up to the next line start. */
  lemma NoCloseUpTo(s: string, keyword: string, lo: nat, pos: nat)
    requires keyword != [] && LineStart(s, pos)
    requires forall m :: lo <= m < pos && LineStart(s, m) ==> !Closes(LineAt(s, m), keyword)
    requires lo <= pos ==> !Closes(LineAt(s, pos), keyword)
    ensures forall m :: lo <= m < Next(s, pos) && LineStart(s, m) ==> !Closes(LineAt(s, m), keyword)
  {
    NextStart(s, pos);
  }

  /** PhreeqcSelectedOutputParser::getBlockByKeyword. */
  method GetBlockByKeyword(input: string, keyword: string) returns (block: string)
    requires keyword != []
    ensures block == Block(input, keyword)
  {
    var found, blockStart, blockEnd := ScanLines(input, keyword);
    if !found {
      return "";
    }
    block := Substr(input, blockStart, Count(blockEnd, blockStart));
    CutFrom(input, BlockBounds(input, keyword), blockStart, blockEnd);
  }

  /** The cut for bounds that start at blockStart and end at blockEnd, as the loop leaves them. */
  lemma CutFrom(input: string, b: Option<Bounds>, blockStart: nat, blockEnd: int)
    requires b.Some? && b.value.start == blockStart && blockStart <= |input|
    requires blockEnd == match b.value.close
                         case None => 0
                         case Some(c) => c - 1
    ensures Cut(input, b) == Substr(input, blockStart, Count(blockEnd, blockStart))
  {
  }

  lemma CountWithin(blockEnd: int, blockStart: int)
    requires 0 <= blockEnd - blockStart + 1 < SizeMod
    ensures Count(blockEnd, blockStart) == blockEnd - blockStart + 1
  {
  }

  lemma CountWraps(blockStart: int)
    requires 2 <= blockStart <= SizeMod
    ensures Count(0, blockStart) == SizeMod + 1 - blockStart
  {
  }

  /** With a closing line at `stop`, the cut is the text from `start` up to that line. */
  lemma CutClosed(input: string, start: nat, stop: nat)
    requires start < stop <= |input| < SizeMod
    ensures Cut(input, Some(Bounds(start, Some(stop)))) == input[start..stop]
  {
    CountWithin(stop - 1, start);
  }

  /**
   * Without a closing line block_end stays 0: the unsigned length wraps, so
   * the cut is the rest of the text, a single character when it starts at
   * offset 0, and nothing when it starts at offset 1.
   */
  lemma CutOpenEnded(input: string, start: nat)
    requires start < |input| < SizeMod
    ensures Cut(input, Some(Bounds(start, None))) ==
      if start == 0 then input[..1] else if start == 1 then [] else input[start..]
  {
    if start <= 1 {
      CountWithin(0, start);
    } else {
      CountWraps(start);
    }
  }

  /** The cut is empty exactly when there are no bounds, or, with no closing line, when it starts at offset 1. */
  lemma CutEmpty(input: string, b: Option<Bounds>)
    requires |input| < SizeMod
    requires b.Some? ==> b.value.start < |input|
    requires b.Some? && b.value.close.Some? ==> b.value.start < b.value.close.value <= |input|
    ensures Cut(input, b) == [] <==> b.None? || (b.value.close.None? && b.value.start == 1)
  {
    if b.Some? {
      if b.value.close.Some? {
        CutClosed(input, b.value.start, b.value.close.value);
      } else {
        CutOpenEnded(input, b.value.start);
      }
    }
  }

  /** A line ending before `stop` is a prefix of the cut from its start to `stop`. */
  lemma CutStartsWithLine(input: string, start: nat, stop: nat)
    requires start < stop <= |input| < SizeMod && Next(input, start) <= stop
    ensures LineAt(input, start) <= Cut(input, Some(Bounds(start, Some(stop))))
  {
    CutClosed(input, start, stop);
    PrefixWithin(input, LineAt(input, start), start, stop);
  }

  /** An open-ended cut from `start` begins with the line there, or is its first character at offset 0. */
  lemma OpenCutStartsWithLine(input: string, start: nat)
    requires start < |input| < SizeMod && start != 1 && LineAt(input, start) != []
    ensures var line := LineAt(input, start);
      if start == 0 then Cut(input, Some(Bounds(start, None))) == line[..1]
      else line <= Cut(input, Some(Bounds(start, None)))
  {
    CutOpenEnded(input, start);
    if start > 0 {
      PrefixWithin(input, LineAt(input, start), start, |input|);
    } else {
      assert input[..1] == LineAt(input, start)[..1];
    }
  }

  /** With a closing line, the block is the text from the start of its opening line up to the closing line. */
  lemma BlockClosed(input: string, keyword: string)
    requires keyword != [] && |input| < SizeMod
    requires BlockBounds(input, keyword).Some? && BlockBounds(input, keyword).value.close.Some?
    ensures var b := BlockBounds(input, keyword).value;
      Block(input, keyword) == input[b.start..b.close.value]
  {
    var b := BlockBounds(input, keyword).value;
    CutClosed(input, b.start, b.close.value);
  }

  /** Without a closing line, the block is what the wrapped length leaves (see CutOpenEnded). */
  lemma BlockOpenEnded(input: string, keyword: string)
    requires keyword != [] && |input| < SizeMod
    requires BlockBounds(input, keyword).Some? && BlockBounds(input, keyword).value.close.None?
    ensures var start := BlockBounds(input, keyword).value.start;
      Block(input, keyword) == if start == 0 then input[..1] else if start == 1 then [] else input[start..]
  {
    CutOpenEnded(input, BlockBounds(input, keyword).value.start);
  }

  /** The block is empty exactly when no line opens it, or, with no closing line, when it opens at offset 1. */
  lemma BlockEmpty(input: string, keyword: string)
    requires keyword != [] && |input| < SizeMod
    ensures var b := BlockBounds(input, keyword);
      Block(input, keyword) == [] <==> b.None? || (b.value.close.None? && b.value.start == 1)
  {
    CutEmpty(input, BlockBounds(input, keyword));
  }

  /**
   * A block that is not empty begins with the keyword line that opened it,
   * or is just that line's first character when it opens the text and
   * nothing closes it.
   */
  lemma BlockStartsWithKeyword(input: string, keyword: string)
    requires keyword != [] && |input| < SizeMod
    requires Block(input, keyword) != []
    ensures var b := BlockBounds(input, keyword);
      b.Some? &&
      var line := LineAt(input, b.value.start);
      KeywordLine(line, keyword) &&
      (if b.value.close.None? && b.value.start == 0
       then Block(input, keyword) == line[..1]
       else line <= Block(input, keyword))
  {
    BlockEmpty(input, keyword);
    var b := BlockBounds(input, keyword).value;
    if b.close.Some? {
      CutStartsWithLine(input, b.start, b.close.value);
    } else {
      OpenCutStartsWithLine(input, b.start);
    }
  }

  lemma PrefixWithin<T>(t: seq<T>, part: seq<T>, a: nat, b: nat)
    requires a + |part| <= b <= |t| && t[a..a + |part|] == part
    ensures part <= t[a..b]
  {
    assert t[a..b][..|part|] == t[a..a + |part|];
  }

  // ------------------------------------------------------------ parseSelectedOutputBlock

  /**
   * What parseSelectedOutputBlock leaves: Ok(None) when there is neither
   * block, an error for a USER_PUNCH block without a SELECTED_OUTPUT block,
   * and otherwise the SELECTED_OUTPUT block followed by the USER_PUNCH block.
   */
  function BlocksOf(so: string, up: string): (r: Result<Option<string>>)
    ensures r.Err? <==> so == [] && up != []
    ensures r == Ok(None) <==> so == [] && up == []
    ensures r.Ok? && r.value.Some? ==> r.value.value == so + up && so <= r.value.value
  {
    if so == [] && up == [] then Ok(None)
    else if so == [] then Err(RuntimeError)
    else Ok(Some(so + up))
  }

  function SelectedOutputBlocks(script: string): Result<Option<string>>
  {
    BlocksOf(Block(script, "SELECTED_OUTPUT"), Block(script, "USER_PUNCH"))
  }

  /** The two getBlockByKeyword calls of parseSelectedOutputBlock and its checks on them. */
  method ReadBlocks(script: string) returns (r: Result<Option<string>>)
    ensures r == SelectedOutputBlocks(script)
  {
    var so := GetBlockByKeyword(script, "SELECTED_OUTPUT");
    var up := GetBlockByKeyword(script, "USER_PUNCH");
    if so == [] && up == [] {
      r := Ok(None);
    } else if so == [] {
      r := Err(RuntimeError);
    } else {
      r := Ok(Some(so + up));
    }
  }

  // ------------------------------------------------------------ parseHeader

  /** One heading: the field with its leading spaces removed, then "_SO"; substr throws out_of_range when nothing but spaces remains. */
  function Heading(field: string): (r: Result<string>)
    ensures r.Err? <==> forall k :: 0 <= k < |field| ==> field[k] == ' '
    ensures r.Ok? ==> exists p :: (0 <= p < |field| && field[p] != ' ' &&
      (forall k :: 0 <= k < p ==> field[k] == ' ') && r.value == field[p..] + "_SO")
  {
    var p := FindNotSpace(field);
    if p == |field| then Err(OutOfRange) else Ok(field[p..] + "_SO")
  }

  /** find_first_not_of(" "), |s| standing for npos. */
  function FindNotSpace(s: string): (p: nat)
    ensures p <= |s| && (p < |s| ==> s[p] != ' ')
    ensures forall k :: 0 <= k < p ==> s[k] == ' '
  {
    if s == [] || s[0] != ' ' then 0 else 1 + FindNotSpace(s[1..])
  }

  /** The headings pushed for the fields in order, and the error of the first field that fails. */
  function Headings(fields: seq<string>): (seq<string>, Option<Error>)
  {
    if fields == [] then ([], None)
    else match Heading(fields[0])
      case Err(e) => ([], Some(e))
      case Ok(h) =>
        var rest := Headings(fields[1..]);
        ([h] + rest.0, rest.1)
  }

  /**
   * The headings are those of the fields before the first one that fails,
   * in order; there is an error exactly when some field fails, and then it
   * is the failing field's.
   */
  lemma {:induction false} HeadingsMeaning(fields: seq<string>)
    ensures var r := Headings(fields);
      |r.0| <= |fields| &&
      (r.1.None? <==> forall k :: 0 <= k < |fields| ==> Heading(fields[k]).Ok?) &&
      (forall k :: 0 <= k < |r.0| ==> Heading(fields[k]) == Ok(r.0[k])) &&
      (r.1.Some? ==> Heading(fields[|r.0|]).Err? && r.1 == Some(OutOfRange)) &&
      (r.1.None? ==> |r.0| == |fields|)
  {
    if fields != [] && Heading(fields[0]).Ok? {
      var rest := fields[1..];
      HeadingsMeaning(rest);
      var r := Headings(fields);
      assert r == ([Heading(fields[0]).value] + Headings(rest).0, Headings(rest).1);
      forall k | 0 <= k < |fields|
        ensures k > 0 ==> fields[k] == rest[k - 1]
      {
      }
    }
  }

  /** The tab-separated fields of the first line of the selected output; an error when there is no first line. */
  function HeaderFields(output: string): (r: Result<seq<string>>)
    ensures r.Err? <==> output == []
  {
    if output == [] then Err(RuntimeError) else Ok(Split(Split(output, '\n')[0], '\t'))
  }

  // ------------------------------------------------------------ getValues

  /** The tab-separated fields of the last line of a selected output string; an error when it is empty. */
  function ValueFields(output: string): (r: Result<seq<string>>)
    ensures r.Err? <==> output == []
  {
    if output == [] then Err(RuntimeError)
    else
      var lines := Split(output, '\n');
      Ok(Split(lines[|lines| - 1], '\t'))
  }

  /** std::stod of each field, NaN where it finds no number. */
  function Parsed(fields: seq<string>, stod: string -> Option<real>): (r: seq<Val>)
    ensures |r| == |fields|
    ensures forall k :: 0 <= k < |r| ==> r[k] == if stod(fields[k]).Some? then Num(stod(fields[k]).value) else NaN
  {
    if fields == [] then []
    else [if stod(fields[0]).Some? then Num(stod(fields[0]).value) else NaN] + Parsed(fields[1..], stod)
  }

  // ------------------------------------------------------------ the parser

  /** What the constructor leaves, given the script and the selected output it reads: has, the block string and the headings, or its exception. */
  function Constructed(stringOn: bool, script: string, header: string, first: string): Result<(bool, string, seq<string>)>
  {
    if !stringOn then Err(RuntimeError)
    else match SelectedOutputBlocks(script)
      case Err(e) => Err(e)
      case Ok(None) => Ok((false, "", []))
      case Ok(Some(block)) => WithHeader(block, header, first)
  }

  /** The constructor's outcome once a SELECTED_OUTPUT block is found: the header is parsed and checked against the first cell's values. */
  function WithHeader(block: string, header: string, first: string): Result<(bool, string, seq<string>)>
  {
    match HeaderFields(header)
    case Err(e) => Err(e)
    case Ok(fields) =>
      var h := Headings(fields);
      if h.1.Some? then Err(h.1.value)
      else match ValueFields(first)
        case Err(e) => Err(e)
        case Ok(values) => if |h.0| != |values| then Err(RuntimeError) else Ok((true, block, h.0))
  }

  /**
   * A parser that is constructed has headings exactly when the script has a
   * SELECTED_OUTPUT block, one per column of the first cell's output line,
   * each a trimmed header field with "_SO" appended.
   */
  lemma ConstructedHeadings(stringOn: bool, script: string, header: string, first: string)
    requires Constructed(stringOn, script, header, first).Ok?
    ensures var r := Constructed(stringOn, script, header, first).value;
      stringOn && (r.0 <==> Block(script, "SELECTED_OUTPUT") != []) &&
      (r.0 ==> r.1 == Block(script, "SELECTED_OUTPUT") + Block(script, "USER_PUNCH") &&
               |r.2| == |ValueFields(first).value| &&
               |r.2| == |HeaderFields(header).value| &&
               forall k :: 0 <= k < |r.2| ==> Heading(HeaderFields(header).value[k]) == Ok(r.2[k])) &&
      (!r.0 ==> r.1 == [] && r.2 == [] && Block(script, "USER_PUNCH") == [])
  {
    var so, up := Block(script, "SELECTED_OUTPUT"), Block(script, "USER_PUNCH");
    assert SelectedOutputBlocks(script) == BlocksOf(so, up);
    if so != [] {
      HeadingsMeaning(HeaderFields(header).value);
    }
  }

  /** The constructor throws when selected-output strings are off, and for a USER_PUNCH block without a SELECTED_OUTPUT block. */
  lemma ConstructedErrors(stringOn: bool, script: string, header: string, first: string)
    ensures !stringOn ==> Constructed(stringOn, script, header, first) == Err(RuntimeError)
    ensures Block(script, "SELECTED_OUTPUT") == [] && Block(script, "USER_PUNCH") != [] ==>
      Constructed(stringOn, script, header, first).Err?
    ensures stringOn && Block(script, "SELECTED_OUTPUT") != [] && header == [] ==>
      Constructed(stringOn, script, header, first) == Err(RuntimeError)
  {
  }

  /**
   * PhreeqcSelectedOutputParser. The IPhreeqc instance's selected-output
   * state enters as values: whether its strings are on, the string at hand
   * when the header is read, and the string for user number 1.
   */
  class SelectedOutputParser {
    var hasSelectedOutput: bool
    var blockString: string
    var headings: seq<string>
    /** The exception the constructor ended with; None when it returned. */
    var thrown: Option<Error>

    /** The constructor: parse both blocks, then the header, and check it against the first cell's values. */
    constructor(stringOn: bool, script: string, header: string, first: string)
      ensures Constructed(stringOn, script, header, first).Ok? ==>
        thrown.None? && (hasSelectedOutput, blockString, headings) == Constructed(stringOn, script, header, first).value
      ensures Constructed(stringOn, script, header, first).Err? ==>
        thrown == Some(Constructed(stringOn, script, header, first).error)
    {
      hasSelectedOutput, blockString, headings, thrown := false, "", [], None;
      new;
      if !stringOn {
        thrown := Some(RuntimeError);
        return;
      }
      var failure := ParseSelectedOutputBlock(script);
      if failure.Some? {
        thrown := failure;
        return;
      }
      if hasSelectedOutput {
        thrown := CheckHeader(header, first);
      }
    }

    /** The constructor's second half: parseHeader, then the header's width against the first cell's values. */
    method CheckHeader(header: string, first: string) returns (failure: Option<Error>)
      requires hasSelectedOutput && headings == []
      modifies this
      ensures unchanged(this`hasSelectedOutput, this`blockString, this`thrown)
      ensures WithHeader(blockString, header, first).Ok? ==>
        failure.None? && (hasSelectedOutput, blockString, headings) == WithHeader(blockString, header, first).value
      ensures WithHeader(blockString, header, first).Err? ==> failure == Some(WithHeader(blockString, header, first).error)
    {
      failure := ParseHeader(header);
      if failure.Some? {
        return;
      }
      assert headings == Headings(HeaderFields(header).value).0;
      var values := GetValueFields(first);
      if values.Err? {
        failure := Some(values.error);
      } else if |headings| != |values.value| {
        failure := Some(RuntimeError);
      }
    }

    /**
     * The copy constructor: the fields are copied, and the block string is
     * replayed on the new instance, whose error count enters as a value.
     */
    constructor Copy(other: SelectedOutputParser, errors: nat)
      requires other.thrown.None?
      ensures hasSelectedOutput == other.hasSelectedOutput
      ensures blockString == other.blockString && headings == other.headings
      ensures thrown == if other.hasSelectedOutput && errors > 0 then Some(RuntimeError) else None
    {
      hasSelectedOutput, blockString, headings := other.hasSelectedOutput, other.blockString, other.headings;
      thrown := if other.hasSelectedOutput && errors > 0 then Some(RuntimeError) else None;
    }

    /** parseSelectedOutputBlock: reads both blocks; the exception comes back as a value. */
    method ParseSelectedOutputBlock(script: string) returns (failure: Option<Error>)
      requires !hasSelectedOutput && blockString == []
      modifies this
      ensures unchanged(this`headings, this`thrown)
      ensures SelectedOutputBlocks(script).Err? ==>
        failure == Some(SelectedOutputBlocks(script).error) && !hasSelectedOutput && blockString == []
      ensures SelectedOutputBlocks(script).Ok? ==>
        failure.None? && hasSelectedOutput == SelectedOutputBlocks(script).value.Some? &&
        blockString == if hasSelectedOutput then SelectedOutputBlocks(script).value.value else []
    {
      var r := ReadBlocks(script);
      match r {
        case Err(e) =>
          failure := Some(e);
        case Ok(block) =>
          if block.Some? {
            hasSelectedOutput := true;
            blockString := block.value;
          }
          failure := None;
      }
    }

    /** parseHeader: one heading pushed per tab-separated field of the first output line. */
    method ParseHeader(output: string) returns (failure: Option<Error>)
      modifies this
      ensures unchanged(this`hasSelectedOutput, this`blockString, this`thrown)
      ensures HeaderFields(output).Err? ==> failure == Some(RuntimeError) && unchanged(this`headings)
      ensures HeaderFields(output).Ok? ==>
        headings == old(headings) + Headings(HeaderFields(output).value).0 &&
        failure == Headings(HeaderFields(output).value).1
    {
      if output == [] {
        return Some(RuntimeError);
      }
      var fields := Split(Split(output, '\n')[0], '\t');
      var i := 0;
      failure := None;
      while i < |fields| && failure.None?
        invariant i <= |fields|
        invariant unchanged(this`hasSelectedOutput, this`blockString, this`thrown)
        invariant headings == old(headings) + Headings(fields[..i]).0 && Headings(fields[..i]).1.None?
        invariant failure.Some? ==> i < |fields| && Heading(fields[i]).Err? && failure == Some(OutOfRange)
        decreases |fields| - i, if failure.None? then 1 else 0
      {
        var field := fields[i];
        var p := FindNotSpace(field);
        if p == |field| {
          failure := Some(OutOfRange);
        } else {
          HeadingsStep(fields, i);
          headings := headings + [field[p..] + "_SO"];
          i := i + 1;
        }
      }
      if failure.None? {
        assert fields[..i] == fields;
      } else {
        HeadingsAppend(fields[..i], fields[i..]);
        assert fields[..i] + fields[i..] == fields;
        assert fields[i..][0] == fields[i];
      }
    }

    /** getValues for user number 1, up to std::stod: the fields of the last line. */
    method GetValueFields(output: string) returns (r: Result<seq<string>>)
      ensures r == if hasSelectedOutput then ValueFields(output) else Ok([])
    {
      if !hasSelectedOutput {
        return Ok([]);
      }
      if output == [] {
        return Err(RuntimeError);
      }
      var lines := Split(output, '\n');
      return Ok(Split(lines[|lines| - 1], '\t'));
    }

    /** getValues(cell_id) with the selected output of that cell and std::stod as values. */
    method GetValues(output: string, stod: string -> Option<real>) returns (r: Result<seq<Val>>)
      ensures !hasSelectedOutput ==> r == Ok([])
      ensures hasSelectedOutput ==> (r.Err? <==> output == [])
      ensures hasSelectedOutput && r.Ok? ==> r.value == Parsed(ValueFields(output).value, stod)
    {
      var fields := GetValueFields(output);
      if fields.Err? {
        return Err(fields.error);
      }
      return Ok(Parsed(fields.value, stod));
    }
  }

  /** One more field read in order: its heading joins the prefix's headings. */
  lemma HeadingsStep(fields: seq<string>, i: nat)
    requires i < |fields| && Heading(fields[i]).Ok?
    requires Headings(fields[..i]).1.None?
    ensures Headings(fields[..i + 1]) == (Headings(fields[..i]).0 + [Heading(fields[i]).value], None)
  {
    HeadingsAppend(fields[..i], [fields[i]]);
    assert fields[..i + 1] == fields[..i] + [fields[i]];
    var one := [fields[i]];
    assert one[1..] == [] && one[0] == fields[i];
    var h := Heading(fields[i]).value;
    assert Headings(one) == ([h] + Headings(one[1..]).0, Headings(one[1..]).1);
    assert [h] + [] == [h];
  }

  /** Headings of two runs of fields, the first without an error, chain. */
  lemma {:induction false} HeadingsAppend(a: seq<string>, b: seq<string>)
    requires Headings(a).1.None?
    ensures Headings(a + b) == (Headings(a).0 + Headings(b).0, Headings(b).1)
  {
    if a == [] {
      assert a + b == b;
      assert Headings(a).0 + Headings(b).0 == Headings(b).0;
    } else {
      assert (a + b)[1..] == a[1..] + b;
      assert (a + b)[0] == a[0];
      assert Heading(a[0]).Ok?;
      var h := Heading(a[0]).value;
      HeadingsAppend(a[1..], b);
      var tail, more := Headings(a[1..]).0, Headings(b).0;
      assert Headings(a) == ([h] + tail, Headings(a[1..]).1);
      assert Headings(a + b) == ([h] + Headings(a[1..] + b).0, Headings(a[1..] + b).1);
      assert [h] + (tail + more) == [h] + tail + more;
    }
  }
}
