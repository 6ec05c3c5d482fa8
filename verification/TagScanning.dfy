/**
 Left-to-right scanning of a tag: how far a greedy match of some pieces reaches, and when that
 is the only way to match them, so that the scan decides the same question as the pattern.
 */
module TagScanning {
  import opened Ordering
  import opened Regex
  import opened TagTokens

  // ---------- Runs ----------

  /** The length of the digits that `s` starts with. */
  function DigitRun(s: string): (n: nat)
    ensures n <= |s| && AllDigits(s[..n]) && (n == |s| || !IsDigit(s[n]))
  {
    if s == [] || !IsDigit(s[0]) then 0
    else
      var n := 1 + DigitRun(s[1..]);
      assert s[..n] == [s[0]] + s[1..][..n - 1];
      n
  }

  /** The length of the `.digits` groups that `s` starts with. */
  function DotRun(s: string): (n: nat)
    ensures n <= |s|
  {
    if s == [] || s[0] != '.' || DigitRun(s[1..]) == 0 then 0
    else
      var k := 1 + DigitRun(s[1..]);
      k + DotRun(s[k..])
  }

  lemma DigitRunLongest(s: string, n: nat)
    requires n <= |s| && AllDigits(s[..n])
    ensures n <= DigitRun(s)
    ensures n == |s| || !IsDigit(s[n]) ==> n == DigitRun(s)
  {
    var r := DigitRun(s);
    assert forall i :: 0 <= i < n ==> s[i] == s[..n][i];
    assert forall i :: 0 <= i < r ==> s[i] == s[..r][i];
  }

  lemma {:induction false} DotRunGroups(s: string)
    requires DotRun(s) > 0
    ensures DotGroups(s[..DotRun(s)])
    decreases |s|
  {
    var n := DotRun(s);
    var k := 1 + DigitRun(s[1..]);
    assert s[..n][1..k] == s[1..][..k - 1];
    assert DotGroupAt(s[..n], k);
    if k < n {
      DotRunGroups(s[k..]);
      assert s[..n][k..] == s[k..][..n - k];
    }
  }

  lemma {:induction false} DotRunLongest(s: string, n: nat)
    requires n <= |s| && DotGroups(s[..n])
    ensures 0 < n <= DotRun(s)
    ensures n == |s| || (!IsDigit(s[n]) && s[n] != '.') ==> n == DotRun(s)
    decreases |s|
  {
    var k: nat :| DotGroupAt(s[..n], k) && (k == n || DotGroups(s[..n][k..]));
    FirstGroup(s, n, k);
    var r := 1 + DigitRun(s[1..]);
    hide DotGroupAt, DigitRun;
    if k < n {
      GroupsStartWithDot(s[..n][k..]);
      assert s[k] == '.';
      assert s[..n][k..] == s[k..][..n - k];
      assert n < |s| ==> s[k..][n - k] == s[n];
      hide DotGroups;
      DotRunLongest(s[k..], n - k);
    } else if n < |s| && !IsDigit(s[n]) && s[n] != '.' {
      assert s[r..][0] == s[n];
    }
  }

  /** The first of some groups: the scan's first step takes all of its digits. */
  lemma FirstGroup(s: string, n: nat, k: nat)
    requires n <= |s| && DotGroupAt(s[..n], k)
    ensures s[0] == '.' && 2 <= k <= 1 + DigitRun(s[1..])
    ensures k == |s| || !IsDigit(s[k]) ==> k == 1 + DigitRun(s[1..])
  {
    assert s[..n][1..k] == s[1..][..k - 1];
    DigitRunLongest(s[1..], k - 1);
  }

  lemma GroupsStartWithDot(s: string)
    requires DotGroups(s)
    ensures s != [] && s[0] == '.'
  {
  }

  // ---------- Greedy matching ----------

  function Shift(n: nat, rest: Option<nat>): Option<nat> {
    if rest.None? then None else Some(n + rest.value)
  }

  /** Each piece takes as much as it can; the result is where the last one stops. */
  function Greedy(ts: seq<Token>, s: string): (r: Option<nat>)
    ensures r.Some? ==> r.value <= |s|
  {
    if ts == [] then Some(0)
    else match ts[0]
      case Literal(c) =>
        if s != [] && s[0] == c then Shift(1, Greedy(ts[1..], s[1..])) else None
      case DotDigits =>
        var n := DotRun(s);
        if n == 0 then None else Shift(n, Greedy(ts[1..], s[n..]))
      case _ =>
        var n := DigitRun(s);
        if n == 0 then None else Shift(n, Greedy(ts[1..], s[n..]))
  }

  lemma {:induction false} GreedySound(ts: seq<Token>, s: string)
    requires Greedy(ts, s).Some?
    ensures Derives(ts, s[..Greedy(ts, s).value])
  {
    var n := Greedy(ts, s).value;
    if ts != [] {
      var k := GreedyFirst(ts, s);
      GreedySound(ts[1..], s[k..]);
      hide Greedy, Derives, TokenMatches;
      assert s[..n][k..] == s[k..][..n - k];
      assert s[..n][..k] == s[..k];
      assert SplitsAt(ts, s[..n], k);
      SplitDerives(ts, s[..n]);
    }
  }

  lemma GreedyFirst(ts: seq<Token>, s: string) returns (k: nat)
    requires ts != [] && Greedy(ts, s).Some?
    ensures k <= |s| && Greedy(ts[1..], s[k..]).Some? && Greedy(ts, s).value == k + Greedy(ts[1..], s[k..]).value
    ensures TokenMatches(ts[0], s[..k])
  {
    k := if ts[0].Literal? then 1 else if ts[0].DotDigits? then DotRun(s) else DigitRun(s);
    if ts[0].DotDigits? {
      DotRunGroups(s);
    } else if ts[0].Literal? {
      assert s[..k] == [s[0]];
    }
  }

  /** The piece cannot continue what a run of digits or groups before it would take. */
  predicate Starts(t: Token, afterGroups: bool) {
    match t
    case Literal(c) => !IsDigit(c) && (afterGroups ==> c != '.')
    case DotDigits => !afterGroups
    case _ => false
  }

  /** No piece can give up characters to the piece after it. */
  predicate Separated(ts: seq<Token>) {
    forall i :: 0 <= i < |ts| - 1 && !ts[i].Literal? ==> Starts(ts[i + 1], ts[i].DotDigits?)
  }

  predicate EndsInDigits(ts: seq<Token>) {
    ts != [] && (ts[|ts| - 1].Digits? || ts[|ts| - 1].Capture?)
  }

  /** What such pieces match starts with a character that an earlier run stops at. */
  lemma StartsStop(ts: seq<Token>, s: string, afterGroups: bool)
    requires ts != [] && Starts(ts[0], afterGroups) && Derives(ts, s)
    ensures s != [] && !IsDigit(s[0]) && (afterGroups ==> s[0] != '.')
  {
    if ts[0].DotDigits? {
      var k :| 0 < k <= |s| && DotGroups(s[..k]) && Derives(ts[1..], s[k..]);
      GroupsStartWithDot(s[..k]);
    }
  }

  /** A greedy match of separated pieces reaches at least as far as any match of them. */
  lemma {:induction false} GreedyLongest(ts: seq<Token>, s: string, n: nat)
    requires Separated(ts) && n <= |s| && Derives(ts, s[..n])
    ensures Greedy(ts, s).Some? && n <= Greedy(ts, s).value
    ensures EndsInDigits(ts) && (n == |s| || !IsDigit(s[n])) ==> n == Greedy(ts, s).value
    decreases |ts|
  {
    if ts != [] {
      SplitDerives(ts, s[..n]);
      var k: nat :| SplitsAt(ts, s[..n], k);
      assert s[..n][..k] == s[..k] && s[..n][k..] == s[k..][..n - k];
      FirstPiece(ts, s, n, k);
      if |ts| == 1 {
        assert k == n;
      } else {
        forall i | 0 <= i < |ts[1..]| - 1 && !ts[1..][i].Literal?
          ensures Starts(ts[1..][i + 1], ts[1..][i].DotDigits?)
        {
          assert ts[1..][i] == ts[i + 1] && ts[1..][i + 1] == ts[i + 2];
        }
        assert EndsInDigits(ts) ==> EndsInDigits(ts[1..]);
        GreedyLongest(ts[1..], s[k..], n - k);
      }
    }
  }

  lemma FirstPiece(ts: seq<Token>, s: string, n: nat, k: nat)
    requires ts != [] && Separated(ts) && k <= n <= |s|
    requires TokenMatches(ts[0], s[..k]) && Derives(ts[1..], s[k..][..n - k])
    ensures ts[0].Literal? ==> s != [] && k == 1 && s[0] == ts[0].c
    ensures ts[0].DotDigits? ==> 0 < k <= DotRun(s) && (|ts| > 1 ==> k == DotRun(s))
    ensures ts[0].Digits? || ts[0].Capture? ==>
              0 < k <= DigitRun(s) && (|ts| > 1 || k == |s| || !IsDigit(s[k]) ==> k == DigitRun(s))
  {
    var rest := s[k..][..n - k];
    if |ts| > 1 && !ts[0].Literal? {
      assert Starts(ts[1..][0], ts[0].DotDigits?);
      StartsStop(ts[1..], rest, ts[0].DotDigits?);
      assert rest[0] == s[k];
    }
    match ts[0]
    case Literal(c) => assert |s[..k]| == 1 && s[..k][0] == s[0];
    case DotDigits => DotRunLongest(s, k);
    case _ => DigitRunLongest(s, k);
  }

  /** The scan and the pattern agree on whole tags. */
  lemma FullMatch(ts: seq<Token>, s: string)
    requires Separated(ts)
    ensures Derives(ts, s) <==> Greedy(ts, s) == Some(|s|)
  {
    assert s[..|s|] == s;
    if Derives(ts, s) {
      GreedyLongest(ts, s, |s|);
    }
    if Greedy(ts, s) == Some(|s|) {
      GreedySound(ts, s);
    }
  }

  // ---------- Concatenation ----------

  ghost predicate SplitBetween(a: seq<Token>, b: seq<Token>, s: string, n: nat) {
    n <= |s| && Derives(a, s[..n]) && Derives(b, s[n..])
  }

  lemma {:induction false} DerivesConcat(a: seq<Token>, b: seq<Token>, s: string)
    ensures Derives(a + b, s) <==> exists n: nat :: SplitBetween(a, b, s, n)
    decreases |a|
  {
    if a == [] {
      assert a + b == b && s[..0] == [] && s[0..] == s;
      if Derives(b, s) {
        assert SplitBetween(a, b, s, 0);
      }
      if n: nat :| SplitBetween(a, b, s, n) {
        assert |s[..n]| == n == 0;
      }
    } else {
      assert (a + b)[1..] == a[1..] + b && (a + b)[0] == a[0];
      SplitDerives(a + b, s);
      if Derives(a + b, s) {
        var k: nat :| SplitsAt(a + b, s, k);
        DerivesConcat(a[1..], b, s[k..]);
        var n: nat :| SplitBetween(a[1..], b, s[k..], n);
        JoinFirst(a, b, s, k, n);
      }
      if m: nat :| SplitBetween(a, b, s, m) {
        SplitDerives(a, s[..m]);
        var k: nat :| SplitsAt(a, s[..m], k);
        assert s[..m][..k] == s[..k] && s[..m][k..] == s[k..][..m - k] && s[k..][m - k..] == s[m..];
        assert SplitBetween(a[1..], b, s[k..], m - k);
        DerivesConcat(a[1..], b, s[k..]);
        assert SplitsAt(a + b, s, k);
      }
    }
  }

  lemma JoinFirst(a: seq<Token>, b: seq<Token>, s: string, k: nat, n: nat)
    requires a != [] && k <= |s| && TokenMatches(a[0], s[..k]) && SplitBetween(a[1..], b, s[k..], n)
    ensures SplitBetween(a, b, s, k + n)
  {
    var m := k + n;
    assert s[..m][..k] == s[..k] && s[..m][k..] == s[k..][..n] && s[k..][n..] == s[m..];
    assert SplitsAt(a, s[..m], k);
    SplitDerives(a, s[..m]);
  }

  lemma {:induction false} DerivesLiterals(text: string, s: string)
    ensures Derives(Literals(text), s) <==> s == text
  {
    if text != [] {
      assert Literals(text)[1..] == Literals(text[1..]);
      DerivesLiterals(text[1..], if s == [] then s else s[1..]);
      if s != [] && s[0] == text[0] {
        assert s == [s[0]] + s[1..] && text == [text[0]] + text[1..];
      }
    }
  }

  // ---------- The shape of a tag ----------

  /** Every run of digits becomes a piece that takes any run; the other characters stay. */
  function Generalise(s: string): seq<Token>
    decreases |s|
  {
    if s == [] then []
    else if IsDigit(s[0]) then
      var n := DigitRun(s);
      [Digits] + Generalise(s[n..])
    else [Literal(s[0])] + Generalise(s[1..])
  }

  lemma {:induction false} GeneraliseSeparated(s: string)
    ensures Separated(Generalise(s))
    ensures Generalise(s) != [] && (s == [] || !IsDigit(s[0])) ==> Starts(Generalise(s)[0], false)
    decreases |s|
  {
    if s != [] {
      var k := if IsDigit(s[0]) then DigitRun(s) else 1;
      GeneraliseSeparated(s[k..]);
      var rest := Generalise(s[k..]);
      assert Generalise(s)[1..] == rest;
      forall i | 0 <= i < |rest| && !Generalise(s)[i].Literal?
        ensures Starts(Generalise(s)[i + 1], Generalise(s)[i].DotDigits?)
      {
        assert Generalise(s)[i + 1] == rest[i];
        if i > 0 {
          assert Generalise(s)[i] == rest[i - 1];
        }
      }
    }
  }

  /** Two tags have the same shape exactly when the pieces of one match the other. */
  lemma {:induction false} SameShape(s: string, text: string)
    ensures Derives(Generalise(s), text) <==> Generalise(text) == Generalise(s)
    decreases |s|
  {
    GeneraliseSeparated(s);
    FullMatch(Generalise(s), text);
    if s == [] {
    } else if IsDigit(s[0]) {
      var k, n := DigitRun(s), DigitRun(text);
      SameShape(s[k..], text[n..]);
      GeneraliseSeparated(s[k..]);
      FullMatch(Generalise(s[k..]), text[n..]);
      assert Generalise(s)[1..] == Generalise(s[k..]);
      if text != [] && IsDigit(text[0]) {
        assert Generalise(text)[1..] == Generalise(text[n..]);
      }
    } else {
      SameShape(s[1..], if text == [] then text else text[1..]);
      GeneraliseSeparated(s[1..]);
      assert Generalise(s)[1..] == Generalise(s[1..]);
      if text != [] {
        FullMatch(Generalise(s[1..]), text[1..]);
        if !IsDigit(text[0]) {
          assert Generalise(text)[1..] == Generalise(text[1..]);
        }
      }
    }
  }
}
