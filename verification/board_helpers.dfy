/**
  The small pure helpers of the `features/board` page: the 24-hex id test,
  the board id lookup from the component prop, the route parameter, the
  `?boardId` query and the URL path, the priority cycle of a task badge,
  and the classification of a column as to-do, in progress or done.
 */
module BoardHelpers {
  import opened Basics

  predicate IsHexDigit(c: char) {
    ('0' <= c <= '9') || ('a' <= c <= 'f') || ('A' <= c <= 'F')
  }

  /** Every character of `s` is a hexadecimal digit of either case. */
  function AllHex(s: string): (r: bool)
    ensures r <==> forall i :: 0 <= i < |s| ==> IsHexDigit(s[i])
  {
    if |s| == 0 then true
    else IsHexDigit(s[0]) && AllHex(s[1..])
  }

  /** The case-insensitive, fully anchored test `^[a-f0-9]{24}$`. */
  function IsHex24(s: string): (r: bool)
    ensures r <==> |s| == 24 && forall i :: 0 <= i < |s| ==> IsHexDigit(s[i])
  {
    |s| == 24 && AllHex(s)
  }

  /** `String.prototype.toLowerCase` on the ASCII letters. */
  function LowerChar(c: char): char {
    if 'A' <= c <= 'Z' then (c as int + 32) as char else c
  }

  function ToLower(s: string): (r: string)
    ensures |r| == |s|
    ensures forall i :: 0 <= i < |s| ==> r[i] == LowerChar(s[i])
  {
    seq(|s|, i requires 0 <= i < |s| => LowerChar(s[i]))
  }

  /** Concatenates `parts`, putting `sep` between neighbours. */
  function Join(parts: seq<string>, sep: char): string
    requires |parts| >= 1
  {
    if |parts| == 1 then parts[0]
    else parts[0] + [sep] + Join(parts[1..], sep)
  }

  /** `s.split(sep)`: the maximal pieces between separators, including the
      empty pieces before a leading, after a trailing and between two
      adjacent separators. Joining the pieces gives `s` back. */
  function Split(s: string, sep: char): (r: seq<string>)
    ensures |r| >= 1
    ensures forall i :: 0 <= i < |r| ==> sep !in r[i]
    ensures Join(r, sep) == s
  {
    if |s| == 0 then [""]
    else
      var rest := Split(s[1..], sep);
      if s[0] == sep then
        assert [s[0]] + s[1..] == s;
        [""] + rest
      else
        JoinConsFirst(s[0], rest, sep);
        assert [s[0]] + s[1..] == s;
        [[s[0]] + rest[0]] + rest[1..]
  }

  /** Prepending a character to the first piece prepends it to the join. */
  lemma JoinConsFirst(c: char, parts: seq<string>, sep: char)
    requires |parts| >= 1
    ensures Join([[c] + parts[0]] + parts[1..], sep) == [c] + Join(parts, sep)
  {
    var q := [[c] + parts[0]] + parts[1..];
    assert q[1..] == parts[1..];
  }

  /** Splitting undoes joining pieces that hold no separator. */
  lemma {:induction false} SplitJoin(parts: seq<string>, sep: char)
    requires |parts| >= 1
    requires forall i :: 0 <= i < |parts| ==> sep !in parts[i]
    ensures Split(Join(parts, sep), sep) == parts
  {
    if |parts| == 1 {
      SplitNoSep(parts[0], sep);
    } else {
      SplitJoin(parts[1..], sep);
      SplitPrefix(parts[0], Join(parts[1..], sep), sep);
      assert parts == [parts[0]] + parts[1..];
    }
  }

  /** A string without the separator is one piece. */
  lemma {:induction false} SplitNoSep(s: string, sep: char)
    requires sep !in s
    ensures Split(s, sep) == [s]
  {
    if |s| > 0 {
      assert s == [s[0]] + s[1..];
      SplitNoSep(s[1..], sep);
    }
  }

  /** Splitting `a + [sep] + b`, with no separator in `a`, yields `a` and
      then the pieces of `b`. */
  lemma {:induction false} SplitPrefix(a: string, b: string, sep: char)
    requires sep !in a
    ensures Split(a + [sep] + b, sep) == [a] + Split(b, sep)
  {
    var s := a + [sep] + b;
    if |a| == 0 {
      assert s[1..] == b;
    } else {
      assert s[1..] == a[1..] + [sep] + b;
      assert a == [a[0]] + a[1..];
      SplitPrefix(a[1..], b, sep);
      assert [a[0]] + a[1..] == a;
    }
  }

  function NonEmpty(s: string): bool {
    s != ""
  }

  /** `pathname.split("/").filter(Boolean)`: the non-empty pieces between
      slashes, each as often as it occurs and in path order. */
  function Segments(path: string): (r: seq<string>)
    ensures forall i :: 0 <= i < |r| ==> r[i] != "" && '/' !in r[i]
    ensures forall p :: p in r <==> p in Split(path, '/') && p != ""
    ensures forall p :: p != "" ==> multiset(r)[p] == multiset(Split(path, '/'))[p]
    ensures Subseq(r, Split(path, '/'))
  {
    FilterCount(Split(path, '/'), NonEmpty);
    FilterSubseq(Split(path, '/'), NonEmpty);
    Filter(Split(path, '/'), NonEmpty)
  }

  /** A path built from slash-free pieces has those pieces, minus the empty
      ones, as its segments. */
  lemma SegmentsOfJoin(parts: seq<string>)
    requires |parts| >= 1
    requires forall i :: 0 <= i < |parts| ==> '/' !in parts[i]
    ensures Segments(Join(parts, '/')) == Filter(parts, NonEmpty)
  {
    SplitJoin(parts, '/');
  }

  /** The path keywords the board id may follow, compared in lower case. */
  predicate IsBoardWord(segment: string) {
    ToLower(segment) == "boards" || ToLower(segment) == "board"
  }

  /** `findIndex`: the first segment that is a board keyword. */
  function FindBoardWord(parts: seq<string>): (r: Option<nat>)
    ensures r.Some? ==> r.value < |parts| && IsBoardWord(parts[r.value])
    ensures r.Some? ==> forall j :: 0 <= j < r.value ==> !IsBoardWord(parts[j])
    ensures r.None? ==> forall j :: 0 <= j < |parts| ==> !IsBoardWord(parts[j])
  {
    if |parts| == 0 then None
    else if IsBoardWord(parts[0]) then Some(0)
    else
      match FindBoardWord(parts[1..])
      case None => None
      case Some(k) => Some(k + 1)
  }

  /** The segment right after the first board keyword, if there is one. */
  function AfterBoardWord(parts: seq<string>): (r: Option<string>)
    ensures r.Some? ==> r.value in parts
  {
    match FindBoardWord(parts)
    case Some(i) => if i + 1 < |parts| then Some(parts[i + 1]) else None
    case None => None
  }

  /** The last segment, if any (`parts.at(-1)`). */
  function LastSegment(parts: seq<string>): (r: Option<string>)
    ensures r.Some? <==> |parts| > 0
    ensures r.Some? ==> r.value == parts[|parts| - 1]
  {
    if |parts| == 0 then None else Some(parts[|parts| - 1])
  }

  /** A candidate is taken when present and a valid id (an empty string is
      falsy and is not a valid id either). */
  predicate Valid(candidate: Option<string>) {
    candidate.Some? && IsHex24(candidate.value)
  }

  /** `useSafeBoardId`: the first valid candidate among the prop, the route
      parameter, the query parameter, the segment after `boards`/`board`
      and the last path segment; `None` when none is valid. A route lookup
      that throws is passed as a missing parameter. */
  function SafeBoardId(prop: Option<string>, param: Option<string>, query: Option<string>, path: string): (r: Option<string>)
    ensures r.Some? ==> IsHex24(r.value)
    ensures Valid(prop) ==> r == prop
    ensures !Valid(prop) && Valid(param) ==> r == param
    ensures !Valid(prop) && !Valid(param) && Valid(query) ==> r == query
    ensures !Valid(prop) && !Valid(param) && !Valid(query) && Valid(AfterBoardWord(Segments(path)))
            ==> r == AfterBoardWord(Segments(path))
    ensures !Valid(prop) && !Valid(param) && !Valid(query)
            && !Valid(AfterBoardWord(Segments(path))) && Valid(LastSegment(Segments(path)))
            ==> r == LastSegment(Segments(path))
    ensures r.Some? ==> r == prop || r == param || r == query || r.value in Segments(path)
    ensures r.None? <==>
      !Valid(prop) && !Valid(param) && !Valid(query)
      && !Valid(AfterBoardWord(Segments(path))) && !Valid(LastSegment(Segments(path)))
  {
    if Valid(prop) then prop
    else if Valid(param) then param
    else if Valid(query) then query
    else
      var parts := Segments(path);
      var after := AfterBoardWord(parts);
      var last := LastSegment(parts);
      if Valid(after) then after
      else if Valid(last) then last
      else None
  }

  /** A board route such as `/boards/<id>` yields its id when no prop, route
      parameter or query parameter supplies one. */
  lemma BoardRouteId(h: string)
    requires IsHex24(h)
    ensures SafeBoardId(None, None, None, "/boards/" + h) == Some(h)
  {
    BoardRouteSegments(h);
    var parts := Segments("/boards/" + h);
    assert IsBoardWord("boards");
    assert FindBoardWord(parts) == Some(0);
  }

  /** On `/boards/<h1>/<h2>` with two valid ids, the one after `boards`
      wins over the last segment. */
  lemma BoardWordBeatsLast(h1: string, h2: string)
    requires IsHex24(h1) && IsHex24(h2)
    ensures SafeBoardId(None, None, None, "/boards/" + h1 + "/" + h2) == Some(h1)
  {
    var parts := ["boards", h1, h2];
    TwoIdSegments(h1, h2);
    assert IsBoardWord("boards");
    assert FindBoardWord(parts) == Some(0);
  }

  lemma TwoIdSegments(h1: string, h2: string)
    requires IsHex24(h1) && IsHex24(h2)
    ensures Segments("/boards/" + h1 + "/" + h2) == ["boards", h1, h2]
  {
    var pieces := ["", "boards", h1, h2];
    TwoIdJoin(h1, h2);
    SegmentsOfJoin(pieces);
    assert pieces[1..] == ["boards", h1, h2];
    assert pieces[1..][1..] == [h1, h2];
    assert [h1, h2][1..] == [h2];
    assert [h2][1..] == [];
    assert Filter([h2], NonEmpty) == [h2];
    assert Filter([h1, h2], NonEmpty) == [h1, h2];
  }

  lemma TwoIdJoin(h1: string, h2: string)
    requires IsHex24(h1) && IsHex24(h2)
    ensures Join(["", "boards", h1, h2], '/') == "/boards/" + h1 + "/" + h2
    ensures forall i :: 0 <= i < 4 ==> '/' !in ["", "boards", h1, h2][i]
  {
    var pieces := ["", "boards", h1, h2];
    assert '/' !in h1 && '/' !in h2;
    assert pieces[1..] == ["boards", h1, h2];
    assert pieces[1..][1..] == [h1, h2];
    assert pieces[1..][1..][1..] == [h2];
    assert Join([h1, h2], '/') == h1 + "/" + h2;
    assert Join(["boards", h1, h2], '/') == "boards/" + h1 + "/" + h2;
  }

  lemma BoardRouteSegments(h: string)
    requires IsHex24(h)
    ensures Segments("/boards/" + h) == ["boards", h]
  {
    var pieces := ["", "boards", h];
    BoardRouteSplit(h);
    assert pieces[1..][1..] == [h];
    assert [h][1..] == [];
    assert Filter([h], NonEmpty) == [h];
    assert Filter(pieces[1..], NonEmpty) == ["boards", h];
  }

  lemma BoardRouteSplit(h: string)
    requires IsHex24(h)
    ensures Split("/boards/" + h, '/') == ["", "boards", h]
  {
    assert '/' !in h;
    var pieces := ["", "boards", h];
    assert pieces[1..][1..] == [h];
    assert Join(pieces[1..], '/') == "boards" + ['/'] + h;
    assert "/boards/" + h == Join(pieces, '/');
    SplitJoin(pieces, '/');
  }

  /** The priority shown on a task badge. */
  datatype Priority = Low | Medium | High

  /** Clicking the badge: low, medium, high, and round again. */
  function NextPriority(p: Priority): (r: Priority)
    ensures r != p
    ensures r == Low <==> p == High
  {
    match p
    case Low => Medium
    case Medium => High
    case High => Low
  }

  /** Three clicks bring a badge back to where it started. */
  lemma PriorityCycle(p: Priority)
    ensures NextPriority(NextPriority(NextPriority(p))) == p
    ensures NextPriority(p) != NextPriority(NextPriority(p))
  {
  }

  /** How a column is coloured. */
  datatype Status = Todo | InProgress | Done

  const DoneKeys: seq<string> := ["done", "selesai", "completed"]
  const InProgressKeys: seq<string> := ["in-progress", "progress", "doing", "dikerjakan"]

  /** `k` occurs in `s` starting at index `i`. */
  predicate OccursAt(s: string, k: string, i: int) {
    0 <= i && i + |k| <= |s| && s[i..i + |k|] == k
  }

  /** `s.includes(k)` */
  function Contains(s: string, k: string): (r: bool)
    ensures r <==> exists i :: OccursAt(s, k, i)
    decreases |s|
  {
    if |s| < |k| then false
    else if s[..|k|] == k then
      assert OccursAt(s, k, 0);
      true
    else
      var r := Contains(s[1..], k);
      ShiftOccurs(s, k);
      r
  }

  lemma ShiftOccurs(s: string, k: string)
    requires |s| >= |k| && s[..|k|] != k
    ensures (exists i :: OccursAt(s, k, i)) <==> exists i :: OccursAt(s[1..], k, i)
  {
    forall i | OccursAt(s, k, i)
      ensures OccursAt(s[1..], k, i - 1)
    {
      assert i != 0;
      assert s[1..][i - 1..i - 1 + |k|] == s[i..i + |k|];
    }
    forall i | OccursAt(s[1..], k, i)
      ensures OccursAt(s, k, i + 1)
    {
      assert s[1..][i..i + |k|] == s[i + 1..i + 1 + |k|];
    }
  }

  /** A column matches a keyword when its lower-cased id is the keyword or
      its lower-cased name contains it. */
  predicate MatchesKey(id: string, name: string, k: string) {
    id == k || Contains(name, k)
  }

  function AnyKey(id: string, name: string, keys: seq<string>): (r: bool)
    ensures r <==> exists j :: 0 <= j < |keys| && MatchesKey(id, name, keys[j])
  {
    if |keys| == 0 then false
    else MatchesKey(id, name, keys[0]) || AnyKey(id, name, keys[1..])
  }

  /** `columnStatus`: the done keywords are checked first, then the
      in-progress keywords, and everything else is to-do. */
  function ColumnStatus(id: string, name: Option<string>): (r: Status)
    ensures var i, n := ToLower(id), ToLower(name.GetOr(""));
      && (r == Done <==> exists j :: 0 <= j < |DoneKeys| && MatchesKey(i, n, DoneKeys[j]))
      && (r == InProgress <==>
            (forall j :: 0 <= j < |DoneKeys| ==> !MatchesKey(i, n, DoneKeys[j]))
            && exists j :: 0 <= j < |InProgressKeys| && MatchesKey(i, n, InProgressKeys[j]))
  {
    var i, n := ToLower(id), ToLower(name.GetOr(""));
    if AnyKey(i, n, DoneKeys) then Done
    else if AnyKey(i, n, InProgressKeys) then InProgress
    else Todo
  }

  /** A column whose id is `done` is done whatever its name says, even a
      name that mentions progress. */
  lemma DoneIdWins(name: Option<string>)
    ensures ColumnStatus("done", name) == Done
  {
    assert ToLower("done") == "done";
    assert MatchesKey(ToLower("done"), ToLower(name.GetOr("")), DoneKeys[0]);
  }
}
