/** Taking the values of `password=...` and `token=...` pairs out of a message. */
module Redaction {
  import opened Text

  predicate Boundary(c: char) {
    c == ' ' || c == '\t' || c == '\n' || c == '\r' || c == '\'' || c == '"' || c == ',' || c == ';'
  }

  /** `part` occurs somewhere in `s`. */
  predicate Contains(s: string, part: string) {
    part <= s || (s != "" && Contains(s[1..], part))
  }

  function SkipDashes(s: string): string {
    if s != "" && s[0] == '-' then SkipDashes(s[1..]) else s
  }

  /** Whether a key names a credential: leading dashes aside, it mentions one. */
  predicate Sensitive(key: string) {
    var name := SkipDashes(Lower(key));
    name != "" && (Contains(name, "password") || Contains(name, "token"))
  }

  // ---- specification: every token on its own -------------------------------------------

  /** Position of the first boundary at or after `from`. */
  function TokenEnd(s: string, from: nat): (n: nat)
    requires from <= |s|
    ensures from <= n <= |s|
    ensures n < |s| ==> Boundary(s[n])
    ensures forall i :: from <= i < n ==> !Boundary(s[i])
    decreases |s| - from
  {
    if from == |s| || Boundary(s[from]) then from else TokenEnd(s, from + 1)
  }

  /** `key=value` with a sensitive key and some value loses the value; anything else stays. */
  function RedactToken(token: string): string {
    var eq := IndexFrom(token, '=', 0);
    if eq + 1 < |token| && Sensitive(token[..eq]) then token[..eq + 1] + "***" else token
  }

  function Redact(s: string): string
    decreases |s|
  {
    if s == "" then ""
    else if Boundary(s[0]) then [s[0]] + Redact(s[1..])
    else
      var n := TokenEnd(s, 0);
      RedactToken(s[..n]) + Redact(s[n..])
  }

  ghost predicate BoundaryFree(s: string) {
    forall i :: 0 <= i < |s| ==> !Boundary(s[i])
  }

  /** No token reaches across the seam between `a` and `b`. */
  ghost predicate Seam(a: string, b: string) {
    a == "" || b == "" || Boundary(a[|a| - 1]) || Boundary(b[0])
  }

  lemma TokenEndUnique(s: string, from: nat, n: nat)
    requires from <= n <= |s| && (n < |s| ==> Boundary(s[n])) && forall i :: from <= i < n ==> !Boundary(s[i])
    ensures TokenEnd(s, from) == n
  {
  }

  lemma {:induction false} RedactOne(token: string)
    requires BoundaryFree(token)
    ensures Redact(token) == RedactToken(token)
  {
    if token != "" {
      TokenEndUnique(token, 0, |token|);
      assert token[..|token|] == token && token[|token|..] == "";
    }
  }

  /** Redaction works on the two sides of a seam separately. */
  lemma {:induction false} RedactSplit(a: string, b: string)
    requires Seam(a, b)
    ensures Redact(a + b) == Redact(a) + Redact(b)
    decreases |a|
  {
    hide RedactToken, TokenEnd;
    var s := a + b;
    if a == "" {
      assert s == b;
    } else if b == "" {
      assert s == a;
    } else if Boundary(a[0]) {
      assert s[1..] == a[1..] + b;
      assert a[1..] != "" ==> a[1..][|a| - 2] == a[|a| - 1];
      RedactSplit(a[1..], b);
      Regroup([a[0]], Redact(a[1..]), Redact(b));
    } else {
      var n := TokenEnd(a, 0);
      SeamEnd(a, b, n);
      assert s[..n] == a[..n] && s[n..] == a[n..] + b;
      RedactSplit(a[n..], b);
      Regroup(RedactToken(a[..n]), Redact(a[n..]), Redact(b));
    }
  }

  /** The first token ends where it ended before something was put behind a seam. */
  lemma {:induction false} SeamEnd(a: string, b: string, n: nat)
    requires a != "" && b != "" && !Boundary(a[0]) && Seam(a, b) && n == TokenEnd(a, 0)
    ensures TokenEnd(a + b, 0) == n && Seam(a[n..], b) && n > 0
  {
    var s := a + b;
    assert forall i :: 0 <= i < |a| ==> s[i] == a[i];
    if n == |a| {
      assert s[n] == b[0];
    } else {
      assert a[n..][|a| - n - 1] == a[|a| - 1];
    }
    TokenEndUnique(s, 0, n);
  }

  lemma {:induction false} RedactNoEquals(s: string)
    requires '=' !in s
    ensures Redact(s) == s
    decreases |s|
  {
    if s == "" {
    } else {
      if Boundary(s[0]) {
        RedactNoEquals(s[1..]);
        assert s == [s[0]] + s[1..];
      } else {
        var n := TokenEnd(s, 0);
        IndexFromUnique(s[..n], '=', 0, n);
        RedactNoEquals(s[n..]);
        assert s == s[..n] + s[n..];
      }
    }
  }

  // ---- what redaction achieves -----------------------------------------------------------------

  lemma {:induction false} RedactTokenAgain(token: string)
    requires BoundaryFree(token)
    ensures BoundaryFree(RedactToken(token)) && RedactToken(RedactToken(token)) == RedactToken(token)
    ensures token != "" ==> RedactToken(token) != ""
  {
    var eq := IndexFrom(token, '=', 0);
    if eq + 1 < |token| && Sensitive(token[..eq]) {
      var r := token[..eq + 1] + "***";
      IndexFromUnique(r, '=', 0, eq);
      assert r[..eq] == token[..eq] && r[..eq + 1] == token[..eq + 1];
    }
  }

  lemma {:induction false} RedactHead(s: string)
    requires s != "" && Boundary(s[0])
    ensures Redact(s) != "" && Redact(s)[0] == s[0]
  {
  }

  /** Redacting twice is redacting once. */
  lemma {:induction false} RedactIdempotent(s: string)
    ensures Redact(Redact(s)) == Redact(s)
    decreases |s|
  {
    hide RedactToken;
    if s == "" {
    } else if Boundary(s[0]) {
      RedactIdempotent(s[1..]);
      var r := Redact(s);
      assert r[1..] == Redact(s[1..]);
    } else {
      var n := TokenEnd(s, 0);
      var token, rest := s[..n], s[n..];
      RedactTokenAgain(token);
      RedactIdempotent(rest);
      if rest != "" {
        RedactHead(rest);
      }
      RedactSplit(RedactToken(token), Redact(rest));
      RedactOne(RedactToken(token));
    }
  }

  /** The redacted message does not depend on a secret: any two non-empty values
      of a sensitive key, wherever the pair stands, redact to the same text. */
  lemma {:induction false} SecretsDoNotShow(a: string, key: string, v: string, w: string, b: string)
    requires BoundaryFree(key) && '=' !in key && Sensitive(key)
    requires v != "" && w != "" && BoundaryFree(v) && BoundaryFree(w)
    requires (a == "" || Boundary(a[|a| - 1])) && (b == "" || Boundary(b[0]))
    ensures Redact(a + (key + "=" + v) + b) == Redact(a + (key + "=" + w) + b)
  {
    SecretGone(a, key, v, b);
    SecretGone(a, key, w, b);
  }

  lemma {:induction false} SecretGone(a: string, key: string, v: string, b: string)
    requires BoundaryFree(key) && '=' !in key && Sensitive(key) && v != "" && BoundaryFree(v)
    requires (a == "" || Boundary(a[|a| - 1])) && (b == "" || Boundary(b[0]))
    ensures Redact(a + (key + "=" + v) + b) == Redact(a) + (key + "=***") + Redact(b)
  {
    hide Redact, Sensitive;
    var pair := key + "=" + v;
    RedactSplit(a, pair);
    assert (a + pair)[|a + pair| - 1] == pair[|pair| - 1];
    RedactSplit(a + pair, b);
    RedactOne(pair);
    IndexFromUnique(pair, '=', 0, |key|);
    assert pair[..|key|] == key && pair[..|key| + 1] == key + "=";
  }

  // ---- the loop that rewrites the message in place -----------------------------------------------

  /** A stretch without `=` before a token, the token, and what follows it. */
  lemma {:induction false} RedactStretch(before: string, token: string, after: string)
    requires '=' !in before && BoundaryFree(token)
    requires (before == "" || Boundary(before[|before| - 1])) && (after == "" || Boundary(after[0]))
    ensures Redact(before + token + after) == before + RedactToken(token) + Redact(after)
  {
    hide Redact, RedactToken;
    RedactSplit(before, token);
    assert token != "" ==> (before + token)[|before + token| - 1] == token[|token| - 1];
    RedactSplit(before + token, after);
    RedactNoEquals(before);
    RedactOne(token);
  }

  /** The token around position `eq`: back and forth to the nearest boundaries. */
  method FindToken(out: string, pos: nat, eq: nat) returns (start: nat, end: nat)
    requires pos <= eq < |out| && (pos == 0 || (pos < eq && Boundary(out[pos]))) && !Boundary(out[eq])
    ensures pos <= start <= eq < end <= |out|
    ensures start == pos || Boundary(out[start - 1])
    ensures end == |out| || Boundary(out[end])
    ensures BoundaryFree(out[start..end])
  {
    start := eq;
    while start > 0 && !Boundary(out[start - 1])
      invariant 0 <= start <= eq
      invariant pos == 0 || pos < start
      invariant forall i :: start <= i < eq ==> !Boundary(out[i])
    {
      start := start - 1;
    }
    end := eq + 1;
    while end < |out| && !Boundary(out[end])
      invariant eq + 1 <= end <= |out|
      invariant forall i :: eq < i < end ==> !Boundary(out[i])
    {
      end := end + 1;
    }
  }

  lemma Slices(s: string, a: nat, b: nat, c: nat)
    requires a <= b <= c <= |s|
    ensures s[a..] == s[a..b] + s[b..c] + s[c..]
    ensures s[..b] == s[..a] + s[a..b]
    ensures s[a..c][..b - a] == s[a..b]
  {
    assert s[a..] == s[a..c] + s[c..];
    assert s[a..c] == s[a..b] + s[b..c];
    assert s[..b] == s[..a] + s[a..b];
    assert s[a..c][..b - a] == s[a..b];
  }

  /** What one round of the loop turns the token around the '=' into. */
  lemma {:induction false} TokenRound(out: string, start: nat, eq: nat, end: nat)
    requires start <= eq < end <= |out| && eq == IndexFrom(out, '=', start)
    ensures RedactToken(out[start..end]) ==
            if end > eq + 1 && Sensitive(out[start..eq]) then out[start..eq + 1] + "***" else out[start..end]
  {
    hide Sensitive;
    var token := out[start..end];
    Slices(out, start, eq, end);
    Slices(out, start, eq + 1, end);
    IndexFromUnique(token, '=', 0, eq - start);
  }

  /** What one round of the loop turns the message into. */
  lemma {:induction false} RedactRound(out: string, pos: nat, start: nat, eq: nat, end: nat)
    requires pos <= start <= eq < end <= |out| && eq == IndexFrom(out, '=', pos)
    requires start == pos || Boundary(out[start - 1])
    requires end == |out| || Boundary(out[end])
    requires BoundaryFree(out[start..end])
    ensures out[..pos] + Redact(out[pos..]) == out[..start] + RedactToken(out[start..end]) + Redact(out[end..])
  {
    hide Redact, RedactToken, BoundaryFree;
    var before, token, after := out[pos..start], out[start..end], out[end..];
    Slices(out, pos, start, end);
    assert '=' !in before && after == out[end..];
    RedactStretch(before, token, after);
    var t, r := RedactToken(token), Redact(after);
    Regroup(out[..pos], before + t, r);
    Regroup(out[..pos], before, t);
  }

  lemma Cut(s: string, a: string, b: string)
    requires s == a + b
    ensures s[..|a|] == a && s[|a|..] == b
    ensures b != "" ==> s[|a|] == b[0]
  {
  }

  /** Replace the value of the token, if its key is sensitive; `stop` is where the search goes on. */
  method Replace(out: string, pos: nat, start: nat, eq: nat, end: nat) returns (next: string, stop: nat)
    requires pos <= start <= eq < end <= |out| && eq == IndexFrom(out, '=', pos)
    requires start == pos || Boundary(out[start - 1])
    requires end == |out| || Boundary(out[end])
    requires BoundaryFree(out[start..end])
    ensures stop <= |next| && next[stop..] == out[end..]
    ensures next[..stop] + Redact(next[stop..]) == out[..pos] + Redact(out[pos..])
  {
    hide Redact, Sensitive, RedactToken;
    RedactRound(out, pos, start, eq, end);
    IndexFromUnique(out, '=', start, eq);
    TokenRound(out, start, eq, end);
    Slices(out, start, eq + 1, end);
    Slices(out, start, end, |out|);
    if end > eq + 1 && Sensitive(out[start..eq]) {
      Regroup(out[..start], out[start..eq + 1], "***");
      next := out[..eq + 1] + "***" + out[end..];
      stop := eq + 4;
      Cut(next, out[..eq + 1] + "***", out[end..]);
    } else {
      next, stop := out, end;
    }
  }

  method RedactMessage(message: string) returns (out: string)
    ensures out == Redact(message)
  {
    hide Redact, BoundaryFree;
    out := message;
    var pos := 0;
    assert out[..0] + Redact(out[0..]) == Redact(message) by { assert out[0..] == message; }
    while true
      invariant 0 <= pos <= |out|
      invariant pos == 0 || pos == |out| || Boundary(out[pos])
      invariant out[..pos] + Redact(out[pos..]) == Redact(message)
      decreases |out| - pos
    {
      var eq := IndexFrom(out, '=', pos);
      if eq == |out| {
        RedactNoEquals(out[pos..]);
        assert out == out[..pos] + out[pos..];
        return;
      }
      var start, end := FindToken(out, pos, eq);
      ghost var after := out[end..];
      assert after != "" ==> Boundary(after[0]);
      out, pos := Replace(out, pos, start, eq, end);
      assert pos < |out| ==> out[pos..][0] == out[pos];
    }
  }

  /** The eight characters that end a token. */
  lemma BoundaryIs(c: char)
    ensures Boundary(c) <==> c in " \t\n\r'\",;"
  {
    var all := " \t\n\r'\",;";
    assert |all| == 8 && all[0] == ' ' && all[1] == '\t' && all[2] == '\n' && all[3] == '\r';
    assert all[4] == '\'' && all[5] == '"' && all[6] == ',' && all[7] == ';';
  }

  /** `part` is `s` from position `i` on. */
  ghost predicate OccursAt(s: string, part: string, i: int) {
    0 <= i <= |s| - |part| && s[i..i + |part|] == part
  }

  lemma OccursLater(s: string, part: string, i: int)
    requires s != ""
    ensures i > 0 ==> (OccursAt(s, part, i) <==> OccursAt(s[1..], part, i - 1))
  {
    if 0 < i <= |s| - |part| {
      assert s[1..][i - 1..i - 1 + |part|] == s[i..i + |part|];
    }
  }

  lemma {:induction false} ContainsIff(s: string, part: string)
    ensures Contains(s, part) <==> exists i :: OccursAt(s, part, i)
    decreases |s|
  {
    assert part <= s <==> OccursAt(s, part, 0);
    if s == "" {
      assert forall i :: OccursAt(s, part, i) ==> i == 0;
    } else {
      ContainsIff(s[1..], part);
      hide OccursAt;
      if i :| OccursAt(s, part, i) {
        OccursLater(s, part, i);
        OccursNowhereElse(s, part, i);
      }
      if i :| OccursAt(s[1..], part, i) {
        OccursNowhereElse(s[1..], part, i);
        OccursLater(s, part, i + 1);
      }
    }
  }

  lemma OccursNowhereElse(s: string, part: string, i: int)
    requires OccursAt(s, part, i)
    ensures i >= 0
  {
  }

  /** A key is sensitive if and only if `password` or `token` stands somewhere in it, in any
      case: leading dashes never decide. */
  lemma {:induction false} SensitiveIff(key: string)
    ensures Sensitive(key) <==>
            exists i :: OccursAt(Lower(key), "password", i) || OccursAt(Lower(key), "token", i)
  {
    hide OccursAt, Contains;
    DashesIrrelevant(Lower(key), "password");
    DashesIrrelevant(Lower(key), "token");
    ContainsIff(Lower(key), "password");
    ContainsIff(Lower(key), "token");
  }

  lemma {:induction false} DashesIrrelevant(s: string, part: string)
    requires part != "" && part[0] != '-'
    ensures Contains(SkipDashes(s), part) <==> Contains(s, part)
    ensures Contains(s, part) ==> SkipDashes(s) != ""
    decreases |s|
  {
    if s != "" && s[0] == '-' {
      DashesIrrelevant(s[1..], part);
    }
  }

  lemma HarmlessToken(token: string)
    requires forall key, v :: token == key + "=" + v && '=' !in key ==> v == "" || !Sensitive(key)
    ensures RedactToken(token) == token
  {
    hide Sensitive;
    var eq := IndexFrom(token, '=', 0);
    if eq < |token| {
      var key, v := token[..eq], token[eq + 1..];
      assert token == key + "=" + v && '=' !in key;
    }
  }

  /** A token that is no pair, has no value, or whose key is harmless stays where it stands. */
  lemma {:induction false} HarmlessKept(a: string, token: string, b: string)
    requires BoundaryFree(token) && (a == "" || Boundary(a[|a| - 1])) && (b == "" || Boundary(b[0]))
    requires forall key, v :: token == key + "=" + v && '=' !in key ==> v == "" || !Sensitive(key)
    ensures Redact(a + token + b) == Redact(a) + token + Redact(b)
  {
    hide Sensitive, RedactToken;
    HarmlessToken(token);
    if token == "" {
      assert a + token + b == a + b && Redact(a) + token + Redact(b) == Redact(a) + Redact(b);
      RedactSplit(a, b);
    } else {
      RedactSplit(a + token, b);
      RedactSplit(a, token);
      RedactOne(token);
    }
  }
}
