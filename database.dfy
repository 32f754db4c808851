/**
 * The table derivation of backend/database.py: the property sheet's column
 * names are normalised, the owners are numbered 1..n, and an ownership pair
 * (property, owner) is emitted for each owner code found in a row's
 * `owned_by` text.  Reading the sheet and writing the tables to the database
 * are not modelled: the sheet is a sequence of rows, the tables are sequences.
 */
module Database {
  import opened Options

  // ---------------------------------------------------------------------------
  // Column names: `c.strip().lower().replace(" ", "_")`

  /** The characters Python's str.strip() removes (those for which str.isspace() holds). */
  predicate IsPySpace(c: char) {
    || ('\t' <= c <= '\r') || ('\U{1C}' <= c <= '\U{1F}') || c == ' '
    || c == '\U{85}' || c == '\U{A0}' || c == '\U{1680}' || ('\U{2000}' <= c <= '\U{200A}')
    || c == '\U{2028}' || c == '\U{2029}' || c == '\U{202F}' || c == '\U{205F}' || c == '\U{3000}'
  }

  predicate IsUpper(c: char) {
    'A' <= c <= 'Z'
  }

  /** `s` without its leading white space. */
  function StripStart(s: string): (t: string)
    ensures |t| <= |s| && t == s[|s| - |t|..]
    ensures t == [] || !IsPySpace(t[0])
  {
    if s != [] && IsPySpace(s[0]) then StripStart(s[1..]) else s
  }

  /** `s` without its trailing white space. */
  function StripEnd(s: string): (t: string)
    ensures t <= s
    ensures t == [] || !IsPySpace(t[|t| - 1])
  {
    if s != [] && IsPySpace(s[|s| - 1]) then StripEnd(s[..|s| - 1]) else s
  }

  /** `s.strip()`: neither end of the result is white space. */
  function Strip(s: string): (t: string)
    ensures |t| <= |s|
    ensures t == [] || (!IsPySpace(t[0]) && !IsPySpace(t[|t| - 1]))
  {
    StripEnd(StripStart(s))
  }

  /** Every character of `w` is white space. */
  predicate AllSpace(w: string) {
    forall k | 0 <= k < |w| :: IsPySpace(w[k])
  }

  /** `t` is `s[a..a + |t|]`, and everything of `s` around it is white space. */
  predicate StrippedAt(s: string, t: string, a: int)
    requires 0 <= a <= |s| - |t|
  {
    s[a..a + |t|] == t && AllSpace(s[..a]) && AllSpace(s[a + |t|..])
  }

  /** StripStart removes white space only: everything before its result is white space. */
  lemma {:induction false} StripStartRemovesLeadingSpace(s: string)
    ensures AllSpace(s[..|s| - |StripStart(s)|])
  {
    if s != [] && IsPySpace(s[0]) {
      var m := |s| - |StripStart(s)|;
      assert StripStart(s) == StripStart(s[1..]);
      StripStartRemovesLeadingSpace(s[1..]);
      assert s[..m] == [s[0]] + s[1..][..m - 1];
      SpaceBefore(s[0], s[1..][..m - 1]);
    }
  }

  lemma SpaceBefore(c: char, w: string)
    requires IsPySpace(c) && AllSpace(w)
    ensures AllSpace([c] + w)
  {
    forall k | 1 <= k < |w| + 1
      ensures IsPySpace(([c] + w)[k])
    {
      assert ([c] + w)[k] == w[k - 1];
    }
  }

  lemma SpaceAfter(w: string, c: char)
    requires AllSpace(w) && IsPySpace(c)
    ensures AllSpace(w + [c])
  {
    forall k | 0 <= k < |w|
      ensures IsPySpace((w + [c])[k])
    {
      assert (w + [c])[k] == w[k];
    }
  }

  /** StripEnd removes white space only: everything after its result is white space. */
  lemma {:induction false} StripEndRemovesTrailingSpace(s: string)
    ensures AllSpace(s[|StripEnd(s)|..])
  {
    if s != [] && IsPySpace(s[|s| - 1]) {
      var p := s[..|s| - 1];
      var n := |StripEnd(s)|;
      assert StripEnd(s) == StripEnd(p);
      StripEndRemovesTrailingSpace(p);
      assert s[n..] == p[n..] + [s[|s| - 1]];
      SpaceAfter(p[n..], s[|s| - 1]);
    }
  }

  /** `s.strip()` is a piece of `s`, and what it cuts off at both ends is white space. */
  lemma StripIsTrimmedPiece(s: string)
    ensures exists a | 0 <= a <= |s| - |Strip(s)| :: StrippedAt(s, Strip(s), a)
  {
    var u := StripStart(s);
    var t := StripEnd(u);
    var a := |s| - |u|;
    StripStartRemovesLeadingSpace(s);
    StripEndRemovesTrailingSpace(u);
    PieceIsStripped(s, u, t, a);
    assert Strip(s) == t;
  }

  /** A prefix `t` of `s[a..]`, with white space before `a` and after `t` in `s[a..]`, is `s` trimmed at `a`. */
  lemma PieceIsStripped(s: string, u: string, t: string, a: nat)
    requires a <= |s| && u == s[a..] && t <= u
    requires AllSpace(s[..a]) && AllSpace(u[|t|..])
    ensures a <= |s| - |t| && StrippedAt(s, t, a)
  {
    assert s[a..a + |t|] == u[..|t|];
    assert s[a + |t|..] == u[|t|..];
  }

  /** `c.lower()` on one character; only the ASCII letters are modelled. */
  function LowerChar(c: char): char {
    if IsUpper(c) then c - 'A' + 'a' else c
  }

  /** `s.lower()` */
  function Lower(s: string): string {
    seq(|s|, i requires 0 <= i < |s| => LowerChar(s[i]))
  }

  /** `s.replace(" ", "_")` */
  function ReplaceSpaces(s: string): string {
    seq(|s|, i requires 0 <= i < |s| => if s[i] == ' ' then '_' else s[i])
  }

  /** A name as the cleanup leaves it: trimmed, no space, no upper-case letter. */
  predicate IsColumnName(s: string) {
    && (forall i | 0 <= i < |s| :: s[i] != ' ' && !IsUpper(s[i]))
    && (s == [] || (!IsPySpace(s[0]) && !IsPySpace(s[|s| - 1])))
  }

  /** What lower() then replace(" ", "_") make of one character. */
  function CleanChar(c: char): char {
    if LowerChar(c) == ' ' then '_' else LowerChar(c)
  }

  /** A space becomes `_`, every other character is lower-cased, and the result is clean. */
  lemma CleanCharIsClean(c: char)
    ensures CleanChar(c) == if c == ' ' then '_' else LowerChar(c)
    ensures CleanChar(c) != ' ' && !IsUpper(CleanChar(c))
    ensures !IsPySpace(c) ==> !IsPySpace(CleanChar(c))
  {
  }

  /** The cleanup of one column name. */
  function NormalizeColumn(c: string): (r: string)
    ensures IsColumnName(r)
    ensures |r| == |Strip(c)|
    ensures forall i | 0 <= i < |r| :: r[i] == CleanChar(Strip(c)[i])
  {
    var t := Strip(c);
    var r := ReplaceSpaces(Lower(t));
    CleanNameIsColumnName(t, r);
    r
  }

  lemma CleanNameIsColumnName(t: string, r: string)
    requires t == [] || (!IsPySpace(t[0]) && !IsPySpace(t[|t| - 1]))
    requires r == ReplaceSpaces(Lower(t))
    ensures |r| == |t|
    ensures IsColumnName(r)
    ensures forall i | 0 <= i < |r| :: r[i] == CleanChar(t[i])
  {
    forall i | 0 <= i < |r|
      ensures r[i] == CleanChar(t[i]) && r[i] != ' ' && !IsUpper(r[i])
    {
      assert Lower(t)[i] == LowerChar(t[i]);
      CleanCharIsClean(t[i]);
    }
    if r != [] {
      CleanCharIsClean(t[0]);
      CleanCharIsClean(t[|t| - 1]);
    }
  }

  /** The cleanup of the sheet's header: as many names, each of them clean. */
  function NormalizeColumns(columns: seq<string>): (r: seq<string>)
    ensures |r| == |columns|
    ensures forall i | 0 <= i < |r| :: r[i] == NormalizeColumn(columns[i]) && IsColumnName(r[i])
  {
    seq(|columns|, i requires 0 <= i < |columns| => NormalizeColumn(columns[i]))
  }

  /** The cleanup leaves a name unchanged exactly when it is already clean. */
  lemma {:induction false} NormalizeColumnFixedPoints(c: string)
    ensures NormalizeColumn(c) == c <==> IsColumnName(c)
  {
    if IsColumnName(c) {
      CleanNameIsFixed(c);
    }
  }

  lemma CleanNameIsFixed(c: string)
    requires IsColumnName(c)
    ensures NormalizeColumn(c) == c
  {
    assert StripStart(c) == c;
    assert StripEnd(c) == c;
    assert Lower(c) == c;
    assert ReplaceSpaces(c) == c;
  }

  /** A header cell with capitals, an inner space and a trailing space. */
  lemma NormalizeColumnExample()
    ensures NormalizeColumn("Owned By ") == "owned_by"
  {
    assert StripStart("Owned By ") == "Owned By ";
    assert StripEnd("Owned By "[..8]) == "Owned By";
    assert Strip("Owned By ") == "Owned By";
    assert Lower("Owned By") == "owned by";
    assert ReplaceSpaces("owned by") == "owned_by";
  }

  /** Cleaning a name twice is cleaning it once. */
  lemma NormalizeColumnIdempotent(c: string)
    ensures NormalizeColumn(NormalizeColumn(c)) == NormalizeColumn(c)
  {
    NormalizeColumnFixedPoints(NormalizeColumn(c));
  }

  // ---------------------------------------------------------------------------
  // The owner table

  /** The owner codes, in the order that gives them their ids. */
  const Owners: seq<string> := ["JLA", "DLE", "SE", "JE", "KLO", "DWL", "RKL", "Wilson", "Ament"]

  datatype OwnerRow = OwnerRow(ownerId: nat, ownerName: string)

  /** `for i, owner in enumerate(owners, start=1)`: owner i gets id i + 1. */
  method BuildOwnerTable(owners: seq<string>) returns (table: seq<OwnerRow>)
    ensures |table| == |owners|
    ensures forall i | 0 <= i < |owners| :: table[i] == OwnerRow(i + 1, owners[i])
    ensures forall a, b | 0 <= a < b < |table| :: table[a].ownerId < table[b].ownerId
  {
    table := [];
    var i := 0;
    while i < |owners|
      invariant 0 <= i <= |owners| && |table| == i
      invariant forall k | 0 <= k < i :: table[k] == OwnerRow(k + 1, owners[k])
    {
      table := table + [OwnerRow(i + 1, owners[i])];
      i := i + 1;
    }
  }

  // ---------------------------------------------------------------------------
  // The ownership table

  /** Python's `needle in hay` on strings: `needle` occurs in `hay` at `at`. */
  ghost predicate OccursAt(needle: string, hay: string, at: int) {
    0 <= at && at + |needle| <= |hay| && hay[at..at + |needle|] == needle
  }

  ghost predicate IsSubstring(needle: string, hay: string) {
    exists at :: OccursAt(needle, hay, at)
  }

  /** `needle in hay`, by trying each position of `hay` in turn. */
  function Contains(needle: string, hay: string): bool
    decreases |hay|
  {
    if |hay| < |needle| then false
    else hay[..|needle|] == needle || (hay != [] && Contains(needle, hay[1..]))
  }

  lemma {:induction false} ContainsIsSubstring(needle: string, hay: string)
    ensures Contains(needle, hay) <==> IsSubstring(needle, hay)
    decreases |hay|
  {
    if |hay| < |needle| {
      forall at ensures !OccursAt(needle, hay, at) {}
    } else if hay[..|needle|] == needle {
      assert OccursAt(needle, hay, 0);
    } else if hay != [] {
      ContainsIsSubstring(needle, hay[1..]);
      if IsSubstring(needle, hay[1..]) {
        var at :| OccursAt(needle, hay[1..], at);
        OccursAfterFirst(needle, hay, at + 1);
      }
      if IsSubstring(needle, hay) {
        var at :| OccursAt(needle, hay, at);
        assert at != 0;
        OccursAfterFirst(needle, hay, at);
      }
    }
  }

  /** An occurrence past the first character of `hay` is one in `hay[1..]`, one place earlier. */
  lemma OccursAfterFirst(needle: string, hay: string, at: int)
    requires hay != [] && at >= 1
    ensures OccursAt(needle, hay, at) <==> OccursAt(needle, hay[1..], at - 1)
  {
    if at + |needle| <= |hay| {
      assert hay[1..][at - 1..at - 1 + |needle|] == hay[at..at + |needle|];
    }
  }

  /** One row of the property sheet: its asset number and its `owned_by` cell (None when empty). */
  datatype SheetRow<A> = SheetRow(asset: A, ownedBy: Option<string>)

  /** One row of the ownership table. */
  datatype OwnershipRow<A> = OwnershipRow(propertyId: A, ownerId: nat)

  /** A (sheet row index, owner id) pair that the loops emit. */
  datatype Match = Match(row: nat, ownerId: nat)

  /** The `owned_by` text after `fillna("")`. */
  function OwnedText<A>(r: SheetRow<A>): string {
    r.ownedBy.GetOr("")
  }

  /** Sheet order, then owner id order. */
  predicate Precedes(m: Match, n: Match) {
    m.row < n.row || (m.row == n.row && m.ownerId < n.ownerId)
  }

  /** The inner loop for one row: the ids of the owners whose code occurs in `text`, in id order. */
  function RowMatches(row: nat, text: string, owners: seq<string>): (ms: seq<Match>)
    ensures |ms| <= |owners|
    ensures forall k | 0 <= k < |ms| :: ms[k].row == row && 1 <= ms[k].ownerId <= |owners|
    ensures forall a, b | 0 <= a < b < |ms| :: ms[a].ownerId < ms[b].ownerId
  {
    if owners == [] then []
    else
      RowMatches(row, text, owners[..|owners| - 1])
        + if Contains(owners[|owners| - 1], text) then [Match(row, |owners|)] else []
  }

  /** Both loops: the pairs emitted for every row, row by row. */
  function Matches<A>(rows: seq<SheetRow<A>>, owners: seq<string>): (ms: seq<Match>)
    ensures forall k | 0 <= k < |ms| :: ms[k].row < |rows| && 1 <= ms[k].ownerId <= |owners|
  {
    if rows == [] then []
    else
      Matches(rows[..|rows| - 1], owners)
        + RowMatches(|rows| - 1, OwnedText(rows[|rows| - 1]), owners)
  }

  /** The table row a pair becomes. */
  function Emit<A>(rows: seq<SheetRow<A>>, m: Match): OwnershipRow<A>
    requires m.row < |rows|
  {
    OwnershipRow(rows[m.row].asset, m.ownerId)
  }

  /** The ownership derivation: fill empty `owned_by` cells with "", then loop over rows and owners. */
  method BuildOwnershipTable<A>(rows: seq<SheetRow<A>>, owners: seq<string>) returns (table: seq<OwnershipRow<A>>)
    ensures |table| == |Matches(rows, owners)|
    ensures forall k | 0 <= k < |table| :: table[k] == Emit(rows, Matches(rows, owners)[k])
  {
    table := [];
    ghost var done: seq<Match> := [];
    var i := 0;
    while i < |rows|
      invariant 0 <= i <= |rows|
      invariant done == Matches(rows[..i], owners)
      invariant |table| == |done|
      invariant forall k | 0 <= k < |done| :: done[k].row < |rows| && table[k] == Emit(rows, done[k])
    {
      var emitted := RowOwnerships(rows[i].asset, i, OwnedText(rows[i]), owners);
      ghost var found := RowMatches(i, OwnedText(rows[i]), owners);
      MatchesStep(rows, owners, i);
      table := table + emitted;
      done := done + found;
      i := i + 1;
    }
    assert rows[..|rows|] == rows;
  }

  /** The loop over the owners for one sheet row: one table row per owner code found in `text`. */
  method RowOwnerships<A>(asset: A, row: nat, text: string, owners: seq<string>) returns (out: seq<OwnershipRow<A>>)
    ensures |out| == |RowMatches(row, text, owners)|
    ensures forall k | 0 <= k < |out| :: out[k] == OwnershipRow(asset, RowMatches(row, text, owners)[k].ownerId)
  {
    out := [];
    var j := 0;
    while j < |owners|
      invariant 0 <= j <= |owners|
      invariant |out| == |RowMatches(row, text, owners[..j])|
      invariant forall k | 0 <= k < |out| :: out[k] == OwnershipRow(asset, RowMatches(row, text, owners[..j])[k].ownerId)
    {
      RowMatchesStep(row, text, owners, j);
      if Contains(owners[j], text) {
        out := out + [OwnershipRow(asset, j + 1)];
      }
      j := j + 1;
    }
    assert owners[..|owners|] == owners;
  }

  lemma RowMatchesStep(row: nat, text: string, owners: seq<string>, j: nat)
    requires j < |owners|
    ensures RowMatches(row, text, owners[..j + 1]) == RowMatches(row, text, owners[..j])
      + if Contains(owners[j], text) then [Match(row, j + 1)] else []
  {
    assert owners[..j + 1][..j] == owners[..j];
  }

  lemma MatchesStep<A>(rows: seq<SheetRow<A>>, owners: seq<string>, i: nat)
    requires i < |rows|
    ensures Matches(rows[..i + 1], owners) == Matches(rows[..i], owners) + RowMatches(i, OwnedText(rows[i]), owners)
  {
    assert rows[..i + 1][..i] == rows[..i];
  }

  /** The table lists its pairs in sheet order, and within a row in owner id order. */
  lemma {:induction false} MatchesInOrder<A>(rows: seq<SheetRow<A>>, owners: seq<string>)
    ensures forall a, b | 0 <= a < b < |Matches(rows, owners)| ::
      Precedes(Matches(rows, owners)[a], Matches(rows, owners)[b])
  {
    if rows != [] {
      var n := |rows|;
      var prefix := Matches(rows[..n - 1], owners);
      var last := RowMatches(n - 1, OwnedText(rows[n - 1]), owners);
      MatchesInOrder(rows[..n - 1], owners);
      var ms := prefix + last;
      forall a, b | 0 <= a < b < |ms|
        ensures Precedes(ms[a], ms[b])
      {
        if b < |prefix| {
          assert Precedes(prefix[a], prefix[b]);
        } else if a < |prefix| {
          assert prefix[a].row < n - 1 && last[b - |prefix|].row == n - 1;
        } else {
          assert last[a - |prefix|].ownerId < last[b - |prefix|].ownerId;
        }
      }
    }
  }

  /** A pair is emitted for a row and an owner id exactly when that owner's code occurs in the row's text. */
  lemma {:induction false} RowMatchesIff(row: nat, text: string, owners: seq<string>, m: Match)
    ensures m in RowMatches(row, text, owners) <==>
      m.row == row && 1 <= m.ownerId <= |owners| && IsSubstring(owners[m.ownerId - 1], text)
  {
    if owners != [] {
      var n := |owners|;
      RowMatchesIff(row, text, owners[..n - 1], m);
      ContainsIsSubstring(owners[n - 1], text);
      if 1 <= m.ownerId < n {
        assert owners[..n - 1][m.ownerId - 1] == owners[m.ownerId - 1];
      }
    }
  }

  /**
   * The pair (row i, owner j) is emitted exactly when owner j's code occurs,
   * as a raw substring, in row i's `owned_by` text.
   */
  lemma {:induction false} MatchesIff<A>(rows: seq<SheetRow<A>>, owners: seq<string>, m: Match)
    ensures m in Matches(rows, owners) <==>
      m.row < |rows| && 1 <= m.ownerId <= |owners| && IsSubstring(owners[m.ownerId - 1], OwnedText(rows[m.row]))
  {
    if rows != [] {
      var n := |rows|;
      MatchesIff(rows[..n - 1], owners, m);
      RowMatchesIff(n - 1, OwnedText(rows[n - 1]), owners, m);
      if m.row < n - 1 {
        assert rows[..n - 1][m.row] == rows[m.row];
      }
    }
  }

  /** The table has at most one pair per (row, owner) combination. */
  lemma {:induction false} MatchesCount<A>(rows: seq<SheetRow<A>>, owners: seq<string>)
    ensures |Matches(rows, owners)| <= |rows| * |owners|
  {
    if rows != [] {
      var n, k := |rows|, |owners|;
      var prefix := Matches(rows[..n - 1], owners);
      var last := RowMatches(n - 1, OwnedText(rows[n - 1]), owners);
      assert |Matches(rows, owners)| == |prefix| + |last|;
      MatchesCount(rows[..n - 1], owners);
      MulStep(n, k);
    }
  }

  lemma MulStep(n: nat, k: nat)
    requires n >= 1
    ensures (n - 1) * k + k == n * k
  {
  }

  /** A row whose `owned_by` cell is empty emits no pair, as long as no owner code is empty. */
  lemma MissingOwnedByEmitsNothing<A>(rows: seq<SheetRow<A>>, owners: seq<string>, i: nat)
    requires i < |rows| && rows[i].ownedBy.None?
    requires forall k | 0 <= k < |owners| :: owners[k] != []
    ensures forall m | m in Matches(rows, owners) :: m.row != i
  {
    forall m | m in Matches(rows, owners)
      ensures m.row != i
    {
      MatchesIff(rows, owners, m);
    }
  }

  /** Matching is raw containment: the code "SE" (owner 3) is found inside the word "KLOSE". */
  lemma RawSubstringMatch<A>(asset: A)
    ensures Match(0, 3) in Matches([SheetRow(asset, Some("KLOSE"))], Owners)
  {
    var rows := [SheetRow(asset, Some("KLOSE"))];
    assert OccursAt("SE", "KLOSE", 3);
    MatchesIff(rows, Owners, Match(0, 3));
  }
}
