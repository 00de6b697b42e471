// The portal shell: the game catalog, the search filter over it and the
// navigation state (view, active game, search query).

module Catalog {

  /** A catalog entry; only the fields the shell's logic reads are kept. */
  datatype Game = Game(id: string, title: string, category: string)

  datatype View = Home | Games | About | Contact | Privacy | Terms | Cookies

  /** The registry in its declared order (the shell never mutates it). */
  const REGISTRY: seq<Game> := [
    Game("snake", "Snake Pro", "Classic Arcade"),
    Game("tictactoe", "Tic-Tac-Toe", "Board Game"),
    Game("memory", "Memory Card Match", "Brain Training"),
    Game("clicker", "Cookie Clicker Pro", "Casual"),
    Game("whack", "Whack-a-Mole", "Reflex"),
    Game("quiz", "General Knowledge Quiz", "Educational"),
    Game("math", "Math Challenge", "Brain Training"),
    Game("color", "Color Matcher", "Reflex"),
    Game("word", "Word Guesser", "Puzzle"),
    Game("sudoku", "Sudoku Lite", "Logic"),
    Game("brick", "Brick Breaker", "Classic Arcade"),
    Game("catch", "Falling Catcher", "Casual"),
    Game("2048", "2048 Game", "Puzzle"),
    Game("block", "Block Puzzle", "Puzzle"),
    Game("balloon", "Balloon Pop", "Casual"),
    Game("maze", "Maze Runner", "Logic"),
    Game("runner", "Endless Run", "Reflex"),
    Game("flappy", "Flappy Wings", "Classic Arcade"),
    Game("bubble", "Bubble Blast", "Puzzle"),
    Game("racing", "Nitro Racing", "Racing")
  ]

  // ---------------------------------------------------------------------------
  // String helpers with the JavaScript meaning

  /** The characters String.prototype.trim removes (white space and line terminators). */
  predicate IsJsSpace(ch: char) {
    ch == ' ' || ch == '\t' || ch == '\n' || ch == '\r' || ch == '\U{000B}' || ch == '\U{000C}'
    || ch == '\U{00A0}' || ch == '\U{1680}' || ('\U{2000}' <= ch <= '\U{200A}')
    || ch == '\U{2028}' || ch == '\U{2029}' || ch == '\U{202F}' || ch == '\U{205F}'
    || ch == '\U{3000}' || ch == '\U{FEFF}'
  }

  function TrimStart(s: string): (r: string)
    ensures |r| <= |s| && r == s[|s| - |r|..]
    ensures r == [] || !IsJsSpace(r[0])
    ensures forall i :: 0 <= i < |s| - |r| ==> IsJsSpace(s[i])
  {
    if s != [] && IsJsSpace(s[0]) then TrimStart(s[1..]) else s
  }

  function TrimEnd(s: string): (r: string)
    ensures |r| <= |s| && r == s[..|r|]
    ensures r == [] || !IsJsSpace(r[|r| - 1])
    ensures forall i :: |r| <= i < |s| ==> IsJsSpace(s[i])
  {
    if s != [] && IsJsSpace(s[|s| - 1]) then TrimEnd(s[..|s| - 1]) else s
  }

  function Trim(s: string): string {
    TrimEnd(TrimStart(s))
  }

  /** Trimming gives the empty string exactly when every character is white space. */
  lemma TrimEmptyIffBlank(s: string)
    ensures Trim(s) == [] <==> forall i :: 0 <= i < |s| ==> IsJsSpace(s[i])
  {
    var t := TrimStart(s);
    if Trim(s) == [] {
      forall i | 0 <= i < |s| ensures IsJsSpace(s[i]) {
        if i >= |s| - |t| {
          assert s[i] == t[i - (|s| - |t|)];
        }
      }
    } else {
      var k := |s| - |t|;
      assert t != [] && !IsJsSpace(t[0]);
      assert s[k] == t[0];
    }
  }

  /** ASCII lowercasing; other characters are left as they are. */
  function LowerChar(ch: char): char {
    if 'A' <= ch <= 'Z' then (ch as int + 32) as char else ch
  }

  function ToLower(s: string): (r: string)
    ensures |r| == |s|
  {
    if s == [] then [] else [LowerChar(s[0])] + ToLower(s[1..])
  }

  /** Lowercasing keeps the length and works character by character. */
  lemma {:induction false} ToLowerAt(s: string)
    ensures |ToLower(s)| == |s|
    ensures forall i :: 0 <= i < |s| ==> ToLower(s)[i] == LowerChar(s[i])
  {
    if s != [] {
      ToLowerAt(s[1..]);
    }
  }

  /** needle occurs in hay starting at index i. */
  predicate OccursAt(hay: string, needle: string, i: int) {
    0 <= i && i + |needle| <= |hay| && hay[i..i + |needle|] == needle
  }

  /** Characters j.. of needle agree with hay from position i + j on. */
  predicate AgreeFrom(hay: string, needle: string, i: nat, j: nat)
    requires i + |needle| <= |hay| && j <= |needle|
    decreases |needle| - j
  {
    j == |needle| || (hay[i + j] == needle[j] && AgreeFrom(hay, needle, i, j + 1))
  }

  /** The scan behind String.prototype.includes, from position i on. */
  predicate IncludesFrom(hay: string, needle: string, i: nat)
    decreases |hay| - i
  {
    i + |needle| <= |hay| && (AgreeFrom(hay, needle, i, 0) || IncludesFrom(hay, needle, i + 1))
  }

  predicate Includes(hay: string, needle: string) {
    IncludesFrom(hay, needle, 0)
  }

  lemma {:induction false} AgreeFromIff(hay: string, needle: string, i: nat, j: nat)
    requires i + |needle| <= |hay| && j <= |needle|
    ensures AgreeFrom(hay, needle, i, j) <==> hay[i + j..i + |needle|] == needle[j..]
    decreases |needle| - j
  {
    if j < |needle| {
      AgreeFromIff(hay, needle, i, j + 1);
      assert hay[i + j..i + |needle|] == [hay[i + j]] + hay[i + j + 1..i + |needle|];
      assert needle[j..] == [needle[j]] + needle[j + 1..];
    }
  }

  /** The scan from i finds needle exactly when it occurs at some index at or after i. */
  lemma {:induction false} IncludesFromIffOccurs(hay: string, needle: string, i: nat)
    ensures IncludesFrom(hay, needle, i) <==> exists j :: i <= j && OccursAt(hay, needle, j)
    decreases |hay| - i
  {
    if i + |needle| <= |hay| {
      AgreeFromIff(hay, needle, i, 0);
      assert needle[0..] == needle;
      assert AgreeFrom(hay, needle, i, 0) <==> OccursAt(hay, needle, i);
      IncludesFromIffOccurs(hay, needle, i + 1);
      if exists j :: i <= j && OccursAt(hay, needle, j) {
        var j :| i <= j && OccursAt(hay, needle, j);
        if j == i {
          assert AgreeFrom(hay, needle, i, 0);
        } else {
          assert IncludesFrom(hay, needle, i + 1);
        }
      }
    }
  }

  /** String.prototype.includes agrees with the direct definition: needle occurs at some index. */
  lemma IncludesIffOccurs(hay: string, needle: string)
    ensures Includes(hay, needle) <==> exists j :: OccursAt(hay, needle, j)
  {
    IncludesFromIffOccurs(hay, needle, 0);
  }

  // ---------------------------------------------------------------------------
  // The per-entry test

  /** Characters j.. of needle agree with the lowercased hay from position i + j on. */
  predicate AgreeLoweredFrom(hay: string, needle: string, i: nat, j: nat)
    requires i + |needle| <= |hay| && j <= |needle|
    decreases |needle| - j
  {
    j == |needle| || (LowerChar(hay[i + j]) == needle[j] && AgreeLoweredFrom(hay, needle, i, j + 1))
  }

  predicate IncludesLoweredFrom(hay: string, needle: string, i: nat)
    decreases |hay| - i
  {
    i + |needle| <= |hay| && (AgreeLoweredFrom(hay, needle, i, 0) || IncludesLoweredFrom(hay, needle, i + 1))
  }

  /** hay.toLowerCase().includes(needle), lowercasing each character as it is compared. */
  predicate IncludesLowered(hay: string, needle: string) {
    IncludesLoweredFrom(hay, needle, 0)
  }

  /** The callback the filter runs on each entry: the lowercased title or
      the lowercased category contains the query. */
  predicate Matches(g: Game, query: string) {
    IncludesLowered(g.title, query) || IncludesLowered(g.category, query)
  }

  lemma {:induction false} AgreeLoweredFromIff(hay: string, needle: string, i: nat, j: nat)
    requires i + |needle| <= |hay| && j <= |needle|
    ensures |ToLower(hay)| == |hay|
    ensures AgreeLoweredFrom(hay, needle, i, j) <==> AgreeFrom(ToLower(hay), needle, i, j)
    decreases |needle| - j
  {
    ToLowerAt(hay);
    if j < |needle| {
      AgreeLoweredFromIff(hay, needle, i, j + 1);
    }
  }

  lemma {:induction false} IncludesLoweredFromIff(hay: string, needle: string, i: nat)
    ensures IncludesLoweredFrom(hay, needle, i) <==> IncludesFrom(ToLower(hay), needle, i)
    decreases |hay| - i
  {
    ToLowerAt(hay);
    if i + |needle| <= |hay| {
      IncludesLoweredFromIff(hay, needle, i + 1);
      AgreeLoweredFromIff(hay, needle, i, 0);
    }
  }

  /** The on-the-fly lowercasing scan agrees with lowercasing first and then
      looking for an occurrence of the query. */
  lemma IncludesLoweredIff(hay: string, needle: string)
    ensures IncludesLowered(hay, needle) <==> exists j :: OccursAt(ToLower(hay), needle, j)
  {
    IncludesLoweredFromIff(hay, needle, 0);
    IncludesIffOccurs(ToLower(hay), needle);
  }

  /** An entry matches exactly when the query occurs in its lowercased title or category. */
  lemma MatchesIff(g: Game, query: string)
    ensures Matches(g, query) <==>
            (exists j :: OccursAt(ToLower(g.title), query, j)) ||
            (exists j :: OccursAt(ToLower(g.category), query, j))
  {
    IncludesLoweredIff(g.title, query);
    IncludesLoweredIff(g.category, query);
  }

  // ---------------------------------------------------------------------------
  // The search filter

  /** Array.prototype.filter: the games the callback keeps, in their order. */
  function Filter(games: seq<Game>, keep: Game -> bool): (r: seq<Game>)
    ensures |r| <= |games|
  {
    if games == [] then []
    else (if keep(games[0]) then [games[0]] else []) + Filter(games[1..], keep)
  }

  /** The memoised filteredGames: the whole registry for a blank query,
      otherwise the entries matching the lowercased, trimmed query. */
  function FilteredGames(registry: seq<Game>, searchQuery: string): seq<Game> {
    if Trim(searchQuery) == [] then registry
    else var query := Trim(ToLower(searchQuery));
         Filter(registry, g => Matches(g, query))
  }

  /** A blank or all-white-space query returns the registry unchanged. */
  lemma BlankQueryKeepsAll(registry: seq<Game>, searchQuery: string)
    requires forall i :: 0 <= i < |searchQuery| ==> IsJsSpace(searchQuery[i])
    ensures FilteredGames(registry, searchQuery) == registry
  {
    TrimEmptyIffBlank(searchQuery);
  }

  /** An entry is in the filtered list exactly when it is in the input and kept. */
  lemma {:induction false} FilterExactly(games: seq<Game>, keep: Game -> bool, g: Game)
    ensures g in Filter(games, keep) <==> g in games && keep(g)
  {
    if games != [] {
      FilterExactly(games[1..], keep, g);
      assert games == [games[0]] + games[1..];
    }
  }

  /** For a non-blank query the result holds exactly the registry entries whose
      lowercased title or category contains the lowercased, trimmed query. */
  lemma NonBlankQueryMatches(registry: seq<Game>, searchQuery: string, g: Game)
    requires exists i :: 0 <= i < |searchQuery| && !IsJsSpace(searchQuery[i])
    ensures var query := Trim(ToLower(searchQuery));
            g in FilteredGames(registry, searchQuery) <==>
            g in registry &&
            ((exists j :: OccursAt(ToLower(g.title), query, j)) ||
             (exists j :: OccursAt(ToLower(g.category), query, j)))
  {
    NonBlankQueryKeeps(registry, searchQuery, g);
    MatchesIff(g, Trim(ToLower(searchQuery)));
  }

  lemma NonBlankQueryKeeps(registry: seq<Game>, searchQuery: string, g: Game)
    requires exists i :: 0 <= i < |searchQuery| && !IsJsSpace(searchQuery[i])
    ensures g in FilteredGames(registry, searchQuery) <==>
            g in registry && Matches(g, Trim(ToLower(searchQuery)))
  {
    TrimEmptyIffBlank(searchQuery);
    var query := Trim(ToLower(searchQuery));
    FilterExactly(registry, g => Matches(g, query), g);
  }

  function Shift(s: seq<nat>): (r: seq<nat>)
    ensures |r| == |s| && forall k :: 0 <= k < |s| ==> r[k] == s[k] + 1
  {
    seq(|s|, k requires 0 <= k < |s| => s[k] + 1)
  }

  /** The positions of games that Filter keeps, in order. */
  function KeptPositions(games: seq<Game>, keep: Game -> bool): seq<nat> {
    if games == [] then []
    else (if keep(games[0]) then [0] else []) + Shift(KeptPositions(games[1..], keep))
  }

  /** Filter picks the games at KeptPositions, in that order. */
  lemma {:induction false} KeptPositionsSelect(games: seq<Game>, keep: Game -> bool)
    ensures |KeptPositions(games, keep)| == |Filter(games, keep)|
    ensures forall k :: 0 <= k < |KeptPositions(games, keep)| ==>
              KeptPositions(games, keep)[k] < |games| &&
              Filter(games, keep)[k] == games[KeptPositions(games, keep)[k]]
  {
    if games != [] {
      var idx := KeptPositions(games, keep);
      var r := Filter(games, keep);
      var tail := Filter(games[1..], keep);
      var rest := KeptPositions(games[1..], keep);
      var h := if keep(games[0]) then 1 else 0;
      assert |rest| == |tail| by { KeptPositionsSelect(games[1..], keep); }
      assert idx == (if keep(games[0]) then [0] else []) + Shift(rest);
      assert r == (if keep(games[0]) then [games[0]] else []) + tail;
      forall k | 0 <= k < |idx|
        ensures idx[k] < |games| && r[k] == games[idx[k]]
      {
        if k >= h {
          var j := k - h;
          assert rest[j] < |games| - 1 && tail[j] == games[1..][rest[j]] by {
            KeptPositionsSelect(games[1..], keep);
          }
          assert idx[k] == Shift(rest)[j] == rest[j] + 1;
        }
      }
    }
  }

  /** KeptPositions are in range and strictly increasing: Filter preserves the order of games. */
  lemma {:induction false} KeptPositionsIncrease(games: seq<Game>, keep: Game -> bool)
    ensures forall k :: 0 <= k < |KeptPositions(games, keep)| ==> KeptPositions(games, keep)[k] < |games|
    ensures forall k, l :: 0 <= k < l < |KeptPositions(games, keep)| ==>
              KeptPositions(games, keep)[k] < KeptPositions(games, keep)[l]
  {
    if games != [] {
      KeptPositionsIncrease(games[1..], keep);
      var idx := KeptPositions(games, keep);
      var rest := KeptPositions(games[1..], keep);
      var h := if keep(games[0]) then 1 else 0;
      assert forall k :: h <= k < |idx| ==> idx[k] == rest[k - h] + 1;
    }
  }

  function Identity(n: nat): (r: seq<nat>)
    ensures |r| == n && forall k :: 0 <= k < n ==> r[k] == k
  {
    if n == 0 then [] else Identity(n - 1) + [n - 1]
  }

  /** The registry positions FilteredGames shows. */
  function FilteredPositions(registry: seq<Game>, searchQuery: string): seq<nat> {
    if Trim(searchQuery) == [] then Identity(|registry|)
    else var query := Trim(ToLower(searchQuery));
         KeptPositions(registry, g => Matches(g, query))
  }

  /** The filtered catalog is a subsequence of the registry in its original order,
      for every query. */
  lemma FilteredIsOrderedSubsequence(registry: seq<Game>, searchQuery: string)
    ensures var idx, shown := FilteredPositions(registry, searchQuery), FilteredGames(registry, searchQuery);
            && |idx| == |shown|
            && (forall k :: 0 <= k < |idx| ==> idx[k] < |registry| && shown[k] == registry[idx[k]])
            && (forall k, l :: 0 <= k < l < |idx| ==> idx[k] < idx[l])
  {
    if Trim(searchQuery) != [] {
      var query := Trim(ToLower(searchQuery));
      KeptPositionsSelect(registry, g => Matches(g, query));
      KeptPositionsIncrease(registry, g => Matches(g, query));
    }
  }

  /** Filtering distributes over concatenation. */
  lemma {:induction false} FilterAppend(a: seq<Game>, b: seq<Game>, keep: Game -> bool)
    ensures Filter(a + b, keep) == Filter(a, keep) + Filter(b, keep)
  {
    if a == [] {
      assert a + b == b;
    } else {
      var h: seq<Game> := if keep(a[0]) then [a[0]] else [];
      FilterAppend(a[1..], b, keep);
      assert (a + b)[1..] == a[1..] + b;
      calc {
        Filter(a + b, keep);
        h + Filter(a[1..] + b, keep);
        h + (Filter(a[1..], keep) + Filter(b, keep));
        (h + Filter(a[1..], keep)) + Filter(b, keep);
      }
    }
  }

  lemma {:induction false} FilterNone(games: seq<Game>, keep: Game -> bool)
    requires forall k :: 0 <= k < |games| ==> !keep(games[k])
    ensures Filter(games, keep) == []
  {
    if games != [] {
      FilterNone(games[1..], keep);
    }
  }

  // ---------------------------------------------------------------------------
  // Navigation state

  class Shell {
    var activeGame: Game
    var view: View
    var searchQuery: string

    constructor ()
      ensures activeGame == REGISTRY[0] && view == Home && searchQuery == ""
    {
      activeGame := REGISTRY[0];
      view := Home;
      searchQuery := "";
    }

    /** handleSelectGame: the chosen game becomes active and the view goes home. */
    method SelectGame(game: Game)
      modifies this
      ensures activeGame == game && view == Home && searchQuery == old(searchQuery)
    {
      activeGame := game;
      view := Home;
    }

    /** handleNavigate: switch view and clear the search query. */
    method Navigate(newView: View)
      modifies this
      ensures view == newView && searchQuery == "" && activeGame == old(activeGame)
    {
      view := newView;
      searchQuery := "";
    }

    /** The search box writes the query verbatim. */
    method SetSearchQuery(q: string)
      modifies this
      ensures searchQuery == q && view == old(view) && activeGame == old(activeGame)
    {
      searchQuery := q;
    }

    /** The list the catalog views show. */
    function Shown(): seq<Game>
      reads this
    {
      FilteredGames(REGISTRY, searchQuery)
    }
  }

  // ---------------------------------------------------------------------------
  // Worked example: the query "raci" against the registry's own entries.
  // The general lemmas above carry the property; this section only
  // evaluates it on the data.

  /** Filter keeps just the last game when the callback rejects all the others. */
  lemma {:induction false} FilterOnlyLast(games: seq<Game>, keep: Game -> bool)
    requires |games| > 0 && keep(games[|games| - 1])
    requires forall k :: 0 <= k < |games| - 1 ==> !keep(games[k])
    ensures Filter(games, keep) == [games[|games| - 1]]
  {
    var n := |games| - 1;
    assert games == games[..n] + [games[n]];
    FilterAppend(games[..n], [games[n]], keep);
    FilterNone(games[..n], keep);
  }

  // Of the registry's entries only the racing game has "raci" in its
  // lowercased title or category.  Evaluation decides each entry; long
  // strings are scanned a few start positions at a time.

  lemma RaciMisses0() ensures !Matches(REGISTRY[0], "raci") {
    assert !IncludesLoweredFrom("Classic Arcade", "raci", 10);
    assert !IncludesLoweredFrom("Classic Arcade", "raci", 6);
    assert !IncludesLoweredFrom("Classic Arcade", "raci", 2);
  }
  lemma RaciMisses1() ensures !Matches(REGISTRY[1], "raci") {
    assert !IncludesLoweredFrom("Tic-Tac-Toe", "raci", 7);
    assert !IncludesLoweredFrom("Tic-Tac-Toe", "raci", 3);
  }
  lemma RaciMisses2() ensures !Matches(REGISTRY[2], "raci") {
    assert !IncludesLoweredFrom("Memory Card Match", "raci", 13);
    assert !IncludesLoweredFrom("Memory Card Match", "raci", 9);
    assert !IncludesLoweredFrom("Memory Card Match", "raci", 5);
    assert !IncludesLoweredFrom("Memory Card Match", "raci", 1);
    assert !IncludesLoweredFrom("Brain Training", "raci", 10);
    assert !IncludesLoweredFrom("Brain Training", "raci", 6);
    assert !IncludesLoweredFrom("Brain Training", "raci", 2);
  }
  lemma RaciMisses3() ensures !Matches(REGISTRY[3], "raci") {
    assert !IncludesLoweredFrom("Cookie Clicker Pro", "raci", 14);
    assert !IncludesLoweredFrom("Cookie Clicker Pro", "raci", 10);
    assert !IncludesLoweredFrom("Cookie Clicker Pro", "raci", 6);
    assert !IncludesLoweredFrom("Cookie Clicker Pro", "raci", 2);
  }
  lemma RaciMisses4() ensures !Matches(REGISTRY[4], "raci") {
    assert !IncludesLoweredFrom("Whack-a-Mole", "raci", 8);
    assert !IncludesLoweredFrom("Whack-a-Mole", "raci", 4);
  }
  lemma RaciMisses5() ensures !Matches(REGISTRY[5], "raci") {
    assert !IncludesLoweredFrom("General Knowledge Quiz", "raci", 18);
    assert !IncludesLoweredFrom("General Knowledge Quiz", "raci", 14);
    assert !IncludesLoweredFrom("General Knowledge Quiz", "raci", 10);
    assert !IncludesLoweredFrom("General Knowledge Quiz", "raci", 6);
    assert !IncludesLoweredFrom("General Knowledge Quiz", "raci", 2);
    assert !IncludesLoweredFrom("Educational", "raci", 7);
    assert !IncludesLoweredFrom("Educational", "raci", 3);
  }
  lemma RaciMisses6() ensures !Matches(REGISTRY[6], "raci") {
    assert !IncludesLoweredFrom("Math Challenge", "raci", 10);
    assert !IncludesLoweredFrom("Math Challenge", "raci", 6);
    assert !IncludesLoweredFrom("Math Challenge", "raci", 2);
    assert !IncludesLoweredFrom("Brain Training", "raci", 10);
    assert !IncludesLoweredFrom("Brain Training", "raci", 6);
    assert !IncludesLoweredFrom("Brain Training", "raci", 2);
  }
  lemma RaciMisses7() ensures !Matches(REGISTRY[7], "raci") {
    assert !IncludesLoweredFrom("Color Matcher", "raci", 9);
    assert !IncludesLoweredFrom("Color Matcher", "raci", 5);
    assert !IncludesLoweredFrom("Color Matcher", "raci", 1);
  }
  lemma RaciMisses8() ensures !Matches(REGISTRY[8], "raci") {
    assert !IncludesLoweredFrom("Word Guesser", "raci", 8);
    assert !IncludesLoweredFrom("Word Guesser", "raci", 4);
  }
  lemma RaciMisses9() ensures !Matches(REGISTRY[9], "raci") {
    assert !IncludesLoweredFrom("Sudoku Lite", "raci", 7);
    assert !IncludesLoweredFrom("Sudoku Lite", "raci", 3);
  }
  lemma RaciMisses10() ensures !Matches(REGISTRY[10], "raci") {
    assert !IncludesLoweredFrom("Brick Breaker", "raci", 9);
    assert !IncludesLoweredFrom("Brick Breaker", "raci", 5);
    assert !IncludesLoweredFrom("Brick Breaker", "raci", 1);
    assert !IncludesLoweredFrom("Classic Arcade", "raci", 10);
    assert !IncludesLoweredFrom("Classic Arcade", "raci", 6);
    assert !IncludesLoweredFrom("Classic Arcade", "raci", 2);
  }
  lemma RaciMisses11() ensures !Matches(REGISTRY[11], "raci") {
    assert !IncludesLoweredFrom("Falling Catcher", "raci", 11);
    assert !IncludesLoweredFrom("Falling Catcher", "raci", 7);
    assert !IncludesLoweredFrom("Falling Catcher", "raci", 3);
  }
  lemma RaciMisses12() ensures !Matches(REGISTRY[12], "raci") {
  }
  lemma RaciMisses13() ensures !Matches(REGISTRY[13], "raci") {
    assert !IncludesLoweredFrom("Block Puzzle", "raci", 8);
    assert !IncludesLoweredFrom("Block Puzzle", "raci", 4);
  }
  lemma RaciMisses14() ensures !Matches(REGISTRY[14], "raci") {
    assert !IncludesLoweredFrom("Balloon Pop", "raci", 7);
    assert !IncludesLoweredFrom("Balloon Pop", "raci", 3);
  }
  lemma RaciMisses15() ensures !Matches(REGISTRY[15], "raci") {
    assert !IncludesLoweredFrom("Maze Runner", "raci", 7);
    assert !IncludesLoweredFrom("Maze Runner", "raci", 3);
  }
  lemma RaciMisses16() ensures !Matches(REGISTRY[16], "raci") {
    assert !IncludesLoweredFrom("Endless Run", "raci", 7);
    assert !IncludesLoweredFrom("Endless Run", "raci", 3);
  }
  lemma RaciMisses17() ensures !Matches(REGISTRY[17], "raci") {
    assert !IncludesLoweredFrom("Flappy Wings", "raci", 8);
    assert !IncludesLoweredFrom("Flappy Wings", "raci", 4);
    assert !IncludesLoweredFrom("Classic Arcade", "raci", 10);
    assert !IncludesLoweredFrom("Classic Arcade", "raci", 6);
    assert !IncludesLoweredFrom("Classic Arcade", "raci", 2);
  }
  lemma RaciMisses18() ensures !Matches(REGISTRY[18], "raci") {
    assert !IncludesLoweredFrom("Bubble Blast", "raci", 8);
    assert !IncludesLoweredFrom("Bubble Blast", "raci", 4);
  }

  lemma RaciMisses(k: nat)
    requires k < 19
    ensures !Matches(REGISTRY[k], "raci")
  {
    if k == 0 { RaciMisses0();
    } else if k == 1 { RaciMisses1();
    } else if k == 2 { RaciMisses2();
    } else if k == 3 { RaciMisses3();
    } else if k == 4 { RaciMisses4();
    } else if k == 5 { RaciMisses5();
    } else if k == 6 { RaciMisses6();
    } else if k == 7 { RaciMisses7();
    } else if k == 8 { RaciMisses8();
    } else if k == 9 { RaciMisses9();
    } else if k == 10 { RaciMisses10();
    } else if k == 11 { RaciMisses11();
    } else if k == 12 { RaciMisses12();
    } else if k == 13 { RaciMisses13();
    } else if k == 14 { RaciMisses14();
    } else if k == 15 { RaciMisses15();
    } else if k == 16 { RaciMisses16();
    } else if k == 17 { RaciMisses17();
    } else if k == 18 { RaciMisses18();
    }
  }

  /** A query that is not blank filters by its trimmed lower-case form. */
  lemma FilteredNonBlank(registry: seq<Game>, searchQuery: string)
    requires Trim(searchQuery) != []
    ensures FilteredGames(registry, searchQuery) == Filter(registry, g => Matches(g, Trim(ToLower(searchQuery))))
  {
  }

  /** A string with no white space at either end trims to itself. */
  lemma TrimUntouched(s: string)
    requires s != [] && !IsJsSpace(s[0]) && !IsJsSpace(s[|s| - 1])
    ensures Trim(s) == s
  {
    assert TrimStart(s) == s;
  }

  lemma RaciQuery() ensures Trim("raci") == "raci" && Trim(ToLower("raci")) == "raci" {
    assert ToLower("raci") == "raci" by {
      assert "raci"[1..] == "aci" && "aci"[1..] == "ci" && "ci"[1..] == "i" && "i"[1..] == [];
      assert ToLower("i") == "i";
      assert ToLower("ci") == "ci";
      assert ToLower("aci") == "aci";
    }
    assert "raci"[0] == 'r' && "raci"[3] == 'i';
    TrimUntouched("raci");
  }

  lemma RaciHits() ensures Matches(REGISTRY[19], "raci") {
    assert AgreeLoweredFrom("Nitro Racing", "raci", 6, 0);
  }

  /** Of the registry only the racing game matches "raci". */
  lemma OnlyRacingKept(query: string)
    requires query == "raci"
    ensures Filter(REGISTRY, g => Matches(g, query)) == [REGISTRY[19]]
  {
    var keep := g => Matches(g, query);
    forall k | 0 <= k < 19 ensures !keep(REGISTRY[k]) {
      RaciMisses(k);
    }
    RaciHits();
    FilterOnlyLast(REGISTRY, keep);
  }

  /** The query "raci" narrows the catalog to the racing game alone. */
  lemma RaciSelectsRacing(searchQuery: string)
    requires searchQuery == "raci"
    ensures FilteredGames(REGISTRY, searchQuery) == [REGISTRY[19]]
  {
    RaciQuery();
    FilteredNonBlank(REGISTRY, searchQuery);
    OnlyRacingKept(Trim(ToLower(searchQuery)));
  }
}
