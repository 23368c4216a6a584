/** Strings as the agent handles them: byte strings compared byte by byte,
    ASCII case folding, and splitting on one separator character.
    A `char` stands for one byte of a `std::string`. */
module Text {

  datatype Option<+T> = None | Some(value: T)

  // ---- order: operator< on std::string ------------------------------------

  predicate Less(a: string, b: string) {
    if b == [] then false
    else if a == [] then true
    else if a[0] != b[0] then a[0] < b[0]
    else Less(a[1..], b[1..])
  }

  lemma {:induction false} LessTotal(a: string, b: string)
    ensures a == b || Less(a, b) || Less(b, a)
    ensures !(Less(a, b) && Less(b, a))
    ensures a == b ==> !Less(a, b)
  {
    if a != [] && b != [] && a[0] == b[0] {
      LessTotal(a[1..], b[1..]);
      assert a == [a[0]] + a[1..] && b == [b[0]] + b[1..];
    }
  }

  lemma {:induction false} LessTransitive(a: string, b: string, c: string)
    requires Less(a, b) && Less(b, c)
    ensures Less(a, c)
  {
    if a != [] && a[0] == b[0] && b[0] == c[0] {
      LessTransitive(a[1..], b[1..], c[1..]);
    }
  }

  /** The order of byte strings: `a` ends first, or has the smaller byte where they first differ. */
  lemma {:induction false} LessIff(a: string, b: string)
    ensures Less(a, b) <==> exists k :: FirstDiffers(a, b, k)
    decreases |a|
  {
    if a == [] || b == [] || a[0] != b[0] {
      assert b != [] && (a == [] || a[0] < b[0]) ==> FirstDiffers(a, b, 0);
    } else {
      LessIff(a[1..], b[1..]);
      assert a == [a[0]] + a[1..] && b == [b[0]] + b[1..];
      if Less(a, b) {
        var k :| FirstDiffers(a[1..], b[1..], k);
        assert a[..k + 1] == [a[0]] + a[1..][..k] && b[..k + 1] == [b[0]] + b[1..][..k];
        assert FirstDiffers(a, b, k + 1);
      }
      forall k | FirstDiffers(a, b, k)
        ensures FirstDiffers(a[1..], b[1..], k - 1)
      {
        assert a[1..][..k - 1] == a[..k][1..] && b[1..][..k - 1] == b[..k][1..];
      }
    }
  }

  ghost predicate FirstDiffers(a: string, b: string, k: int) {
    && 0 <= k <= |a| && k < |b| && a[..k] == b[..k]
    && (k == |a| || a[k] < b[k])
  }

  // ---- ASCII case folding: to_lower_copy in the classic locale ------------

  function LowerChar(c: char): char {
    if 'A' <= c <= 'Z' then (c as int + 32) as char else c
  }

  const CAPITALS: string := "ABCDEFGHIJKLMNOPQRSTUVWXYZ"
  const SMALLS: string := "abcdefghijklmnopqrstuvwxyz"

  /** The 26 capitals fold to their small letters, and nothing else changes. */
  lemma LowerCharIs(c: char)
    ensures forall i :: 0 <= i < 26 && c == CAPITALS[i] ==> LowerChar(c) == SMALLS[i]
    ensures c !in CAPITALS ==> LowerChar(c) == c
  {
    assert 'A' <= c <= 'Z' ==> CAPITALS[c as int - 65] == c;
  }

  function Lower(s: string): (r: string)
    ensures |r| == |s|
    ensures forall i :: 0 <= i < |s| ==> r[i] == LowerChar(s[i])
  {
    seq(|s|, i requires 0 <= i < |s| => LowerChar(s[i]))
  }

  // ---- searching ------------------------------------------------------------

  /** Position of the first `c` at or after `from`; |s| stands for npos. */
  function IndexFrom(s: string, c: char, from: nat): (i: nat)
    requires from <= |s|
    ensures from <= i <= |s|
    ensures i < |s| ==> s[i] == c
    ensures forall k :: from <= k < i ==> s[k] != c
    decreases |s| - from
  {
    if from == |s| || s[from] == c then from else IndexFrom(s, c, from + 1)
  }

  /** The searched-for position is determined by what IndexFrom promises. */
  lemma IndexFromUnique(s: string, c: char, from: nat, i: nat)
    requires from <= i <= |s|
    requires i < |s| ==> s[i] == c
    requires forall k :: from <= k < i ==> s[k] != c
    ensures IndexFrom(s, c, from) == i
  {
  }

  // ---- splitting on a separator and joining again ---------------------------

  function Split(s: string, sep: char): (parts: seq<string>)
    ensures |parts| > 0
    decreases |s|
  {
    var i := IndexFrom(s, sep, 0);
    if i == |s| then [s] else [s[..i]] + Split(s[i + 1..], sep)
  }

  function Join(parts: seq<string>, sep: char): string
    requires |parts| > 0
  {
    if |parts| == 1 then parts[0] else parts[0] + [sep] + Join(parts[1..], sep)
  }

  ghost predicate SeparatorFree(parts: seq<string>, sep: char) {
    forall i :: 0 <= i < |parts| ==> sep !in parts[i]
  }

  lemma {:induction false} JoinSplit(s: string, sep: char)
    ensures SeparatorFree(Split(s, sep), sep)
    ensures Join(Split(s, sep), sep) == s
    decreases |s|
  {
    var i := IndexFrom(s, sep, 0);
    if i == |s| {
    } else {
      JoinSplit(s[i + 1..], sep);
      var rest := Split(s[i + 1..], sep);
      assert Split(s, sep)[1..] == rest;
      assert s == s[..i] + [sep] + s[i + 1..];
    }
  }

  lemma {:induction false} SplitJoin(parts: seq<string>, sep: char)
    requires |parts| > 0 && SeparatorFree(parts, sep)
    ensures Split(Join(parts, sep), sep) == parts
    decreases |parts|
  {
    var s := Join(parts, sep);
    if |parts| == 1 {
      IndexFromUnique(s, sep, 0, |s|);
    } else {
      var n := |parts[0]|;
      assert s[n] == sep && s[..n] == parts[0];
      IndexFromUnique(s, sep, 0, n);
      assert s[n + 1..] == Join(parts[1..], sep);
      SplitJoin(parts[1..], sep);
    }
  }

  lemma {:induction false} SplitHead(token: string, rest: string, sep: char)
    requires sep !in token
    ensures Split(token, sep) == [token]
    ensures Split(token + [sep] + rest, sep) == [token] + Split(rest, sep)
  {
    IndexFromUnique(token, sep, 0, |token|);
    var s := token + [sep] + rest;
    IndexFromUnique(s, sep, 0, |token|);
    assert s[..|token|] == token && s[|token| + 1..] == rest;
  }

  // ---- comma-separated lists -----------------------------------------------------------

  function TrimStart(s: string, blanks: set<char>): string {
    if s != [] && s[0] in blanks then TrimStart(s[1..], blanks) else s
  }

  function TrimEnd(s: string, blanks: set<char>): string {
    if s != [] && s[|s| - 1] in blanks then TrimEnd(s[..|s| - 1], blanks) else s
  }

  function Trimmed(s: string, blanks: set<char>): string {
    TrimEnd(TrimStart(s, blanks), blanks)
  }

  ghost predicate Blank(s: string, blanks: set<char>) {
    forall i :: 0 <= i < |s| ==> s[i] in blanks
  }

  /** `r` is `s` with the blanks around it taken off, and no others. */
  ghost predicate IsTrimOf(r: string, s: string, blanks: set<char>) {
    && (r != [] ==> r[0] !in blanks && r[|r| - 1] !in blanks)
    && exists a, b :: s == a + r + b && Blank(a, blanks) && Blank(b, blanks)
  }

  lemma {:induction false} TrimStartCuts(s: string, a: nat, blanks: set<char>)
    requires a <= |s| && Blank(s[..a], blanks) && (a < |s| ==> s[a] !in blanks)
    ensures TrimStart(s, blanks) == s[a..]
    decreases a
  {
    if a == 0 {
    } else {
      assert s[..a][0] == s[0];
      assert s[1..][..a - 1] == s[..a][1..];
      TrimStartCuts(s[1..], a - 1, blanks);
    }
  }

  lemma {:induction false} TrimEndCuts(s: string, b: nat, blanks: set<char>)
    requires b <= |s| && Blank(s[b..], blanks) && (b > 0 ==> s[b - 1] !in blanks)
    ensures TrimEnd(s, blanks) == s[..b]
    decreases |s| - b
  {
    if b == |s| {
    } else {
      assert s[b..][|s| - 1 - b] == s[|s| - 1];
      assert s[..|s| - 1][b..] == s[b..][..|s| - 1 - b];
      TrimEndCuts(s[..|s| - 1], b, blanks);
      assert s[..|s| - 1][..b] == s[..b];
    }
  }

  lemma {:induction false} TrimmedCuts(s: string, a: nat, b: nat, blanks: set<char>)
    requires a <= b <= |s|
    requires forall i :: 0 <= i < a || b <= i < |s| ==> s[i] in blanks
    requires a < b ==> s[a] !in blanks && s[b - 1] !in blanks
    requires a == b ==> b == |s|
    ensures Trimmed(s, blanks) == s[a..b]
  {
    TrimStartCuts(s, a, blanks);
    var rest := s[a..];
    assert rest[b - a..] == s[b..];
    TrimEndCuts(rest, b - a, blanks);
    assert rest[..b - a] == s[a..b];
  }

  lemma {:induction false} CutIsTrim(s: string, a: nat, b: nat, blanks: set<char>)
    requires a <= b <= |s|
    requires forall i :: 0 <= i < a || b <= i < |s| ==> s[i] in blanks
    requires a < b ==> s[a] !in blanks && s[b - 1] !in blanks
    ensures IsTrimOf(s[a..b], s, blanks)
  {
    var left, right := s[..a], s[b..];
    assert s == left + s[a..b] + right;
    assert Blank(left, blanks) && Blank(right, blanks);
  }

  /** The trimmed, non-empty entries of a list. */
  function NonEmpty(parts: seq<string>, blanks: set<char>): seq<string> {
    if parts == [] then []
    else
      var entry := Trimmed(parts[0], blanks);
      (if entry == "" then [] else [entry]) + NonEmpty(parts[1..], blanks)
  }

  function Entries(csv: string, blanks: set<char>): seq<string> {
    NonEmpty(Split(csv, ','), blanks)
  }

  function Entry(token: string, blanks: set<char>): seq<string> {
    if Trimmed(token, blanks) == "" then [] else [Trimmed(token, blanks)]
  }

  lemma {:induction false} EntriesHead(token: string, rest: string, blanks: set<char>)
    requires ',' !in token
    ensures Entries(token, blanks) == Entry(token, blanks)
    ensures Entries(token + [','] + rest, blanks) == Entry(token, blanks) + Entries(rest, blanks)
  {
    hide Trimmed;
    SplitHead(token, rest, ',');
    assert [token][1..] == [] && NonEmpty([], blanks) == [];
    assert ([token] + Split(rest, ','))[1..] == Split(rest, ',');
  }

  lemma Regroup(a: string, b: string, c: string)
    ensures a + (b + c) == a + b + c
  {
  }

  function Max(a: nat, b: nat): nat {
    if a < b then b else a
  }
}
