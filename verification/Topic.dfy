/** Strings as the broker compares them, and topics as sequences of levels. */
module Strings {

  /** The C library order: the sign says which string is smaller, byte by byte. */
  function StrCmp(a: string, b: string): (r: int)
    ensures r == 0 <==> a == b
  {
    if a == [] && b == [] then 0
    else if a == [] then -1
    else if b == [] then 1
    else if a[0] < b[0] then -1
    else if a[0] > b[0] then 1
    else
      assert a == [a[0]] + a[1..] && b == [b[0]] + b[1..];
      StrCmp(a[1..], b[1..])
  }

  /** They agree in the first `k` characters, and there `a` ends or has the smaller one. */
  predicate LessAt(a: string, b: string, k: nat) {
    k <= |a| && k < |b| && a[..k] == b[..k] && (k == |a| || a[k] < b[k])
  }

  lemma SameFirst(a: string, b: string, k: nat)
    ensures LessAt(a, b, k) && k > 0 ==> a[0] == b[0]
  {
    if LessAt(a, b, k) && k > 0 { assert a[..k][0] == b[..k][0]; }
  }

  /** The order of the C library is that of a dictionary. */
  lemma {:induction false} StrCmpIff(a: string, b: string)
    ensures StrCmp(a, b) < 0 <==> exists k: nat :: LessAt(a, b, k)
  {
    if a == [] || b == [] || a[0] != b[0] {
      if b != [] && (a == [] || a[0] < b[0]) { assert LessAt(a, b, 0); }
      forall k: nat | LessAt(a, b, k) ensures StrCmp(a, b) < 0 {
        SameFirst(a, b, k);
      }
    } else {
      StrCmpIff(a[1..], b[1..]);
      if k: nat :| LessAt(a[1..], b[1..], k) {
        assert a[..k + 1] == [a[0]] + a[1..][..k] && b[..k + 1] == [b[0]] + b[1..][..k];
        assert LessAt(a, b, k + 1);
      }
      if k: nat :| LessAt(a, b, k) {
        assert k > 0 && a[1..][..k - 1] == a[..k][1..] && b[1..][..k - 1] == b[..k][1..];
        assert LessAt(a[1..], b[1..], k - 1);
      }
    }
  }

  lemma StrCmpAntisymmetric(a: string, b: string)
    ensures StrCmp(a, b) < 0 <==> StrCmp(b, a) > 0
  {
  }

  lemma {:induction false} StrCmpTransitive(a: string, b: string, c: string)
    requires StrCmp(a, b) < 0 && StrCmp(b, c) < 0
    ensures StrCmp(a, c) < 0
  {
    if a != [] && a[0] == b[0] == c[0] {
      StrCmpTransitive(a[1..], b[1..], c[1..]);
    }
  }
}

/** Topic levels: `topic_parse` and the filter language of section 4.7.1 of MQTT 3.1.1. */
module Topics {

  type Path = seq<string>

  const PLUS: string := "+"
  const WELL: string := "#"
  const SLASH: char := '/'

  predicate IsWild(t: string) { t == PLUS || t == WELL }

  predicate WildcardFree(p: Path) { forall i :: 0 <= i < |p| ==> !IsWild(p[i]) }

  /** What `strchr` finds: the first separator at or after `from`, or the end of the string. */
  function NextSlash(s: string, from: nat): (r: nat)
    requires from <= |s|
    ensures from <= r <= |s|
    ensures SLASH !in s[from..r]
    ensures r < |s| ==> s[r] == SLASH
    decreases |s| - from
  {
    if from == |s| || s[from] == SLASH then from
    else
      var r := NextSlash(s, from + 1);
      assert s[from..r] == [s[from]] + s[from + 1..r];
      r
  }

  /** The levels of the part of a topic that starts at `from`. */
  function SplitFrom(s: string, from: nat): (q: Path)
    requires from <= |s|
    ensures |q| >= 1
    decreases |s| - from
  {
    var i := NextSlash(s, from);
    if i == |s| then [s[from..]] else [s[from..i]] + SplitFrom(s, i + 1)
  }

  function Split(s: string): Path { SplitFrom(s, 0) }

  function Join(q: Path): string
    requires |q| >= 1
  {
    if |q| == 1 then q[0] else q[0] + [SLASH] + Join(q[1..])
  }

  lemma JoinCons(x: string, q: Path)
    ensures Join([x]) == x
    ensures q != [] ==> Join([x] + q) == x + [SLASH] + Join(q)
  {
    assert ([x] + q)[1..] == q;
  }

  lemma SplitStep(s: string, from: nat)
    requires from <= |s|
    ensures var i := NextSlash(s, from);
            SplitFrom(s, from) == if i == |s| then [s[from..]] else [s[from..i]] + SplitFrom(s, i + 1)
  {
  }

  /** Splitting is the inverse of joining on every string, and no level holds a separator. */
  lemma {:induction false} JoinSplit(s: string, from: nat)
    requires from <= |s|
    ensures Join(SplitFrom(s, from)) == s[from..]
    ensures forall i :: 0 <= i < |SplitFrom(s, from)| ==> SLASH !in SplitFrom(s, from)[i]
    decreases |s| - from
  {
    hide NextSlash, SplitFrom, Join;
    var i := NextSlash(s, from);
    SplitStep(s, from);
    if i < |s| {
      JoinSplit(s, i + 1);
      JoinCons(s[from..i], SplitFrom(s, i + 1));
      assert s[from..] == s[from..i] + [SLASH] + s[i + 1..];
    } else {
      JoinCons(s[from..], []);
      assert s[from..i] == s[from..];
    }
  }

  /** Distinct topics have distinct level sequences, so the tree can tell filters apart. */
  lemma SplitInjective(s: string, t: string)
    requires Split(s) == Split(t)
    ensures s == t
  {
    JoinSplit(s, 0);
    JoinSplit(t, 0);
    assert s[0..] == s && t[0..] == t;
  }

  method TopicCount(topic: string) returns (cnt: nat)
    ensures cnt == |Split(topic)|
  {
    hide NextSlash, SplitFrom;
    cnt := 0;
    var t := 0;
    while true
      invariant t <= |topic|
      invariant cnt + |SplitFrom(topic, t)| == |Split(topic)|
      decreases |topic| - t
    {
      SplitStep(topic, t);
      t := NextSlash(topic, t);
      cnt := cnt + 1;
      if t == |topic| { break; }
      t := t + 1;
    }
  }

  /** Fills a queue of exactly `topic_count` slots: no write is out of bounds and none is left over. */
  method TopicParse(topic: string) returns (queue: Path)
    ensures queue == Split(topic)
    ensures |queue| >= 1
  {
    hide NextSlash, SplitFrom;
    var cnt := TopicCount(topic);
    var slots := new string[cnt](_ => "");
    var row, bPos := 0, 0;
    var pos := NextSlash(topic, bPos);
    while pos < |topic|
      invariant bPos <= |topic| && pos == NextSlash(topic, bPos)
      invariant row + |SplitFrom(topic, bPos)| == cnt
      invariant slots[..row] + SplitFrom(topic, bPos) == Split(topic)
      decreases |topic| - bPos
    {
      SplitStep(topic, bPos);
      ghost var before := slots[..row];
      slots[row] := topic[bPos..pos];
      assert slots[..row + 1] == before + [topic[bPos..pos]];
      assert before + ([topic[bPos..pos]] + SplitFrom(topic, pos + 1)) == slots[..row + 1] + SplitFrom(topic, pos + 1);
      bPos := pos + 1;
      row := row + 1;
      pos := NextSlash(topic, bPos);
    }
    SplitStep(topic, bPos);
    ghost var before := slots[..row];
    slots[row] := topic[bPos..];
    assert slots[..row + 1] == before + [topic[bPos..]];
    assert slots[..row + 1] == slots[..];
    queue := slots[..];
  }

  /** One level of a filter against one level of a topic. */
  predicate LevelMatches(f: string, t: string) { f == PLUS || f == t }

  predicate LevelsMatch(f: Path, t: Path)
    requires |f| <= |t|
  {
    forall i :: 0 <= i < |f| ==> LevelMatches(f[i], t[i])
  }

  /**
   * The flat matching relation, as coded: a final `#` stands for one or more levels (so it does not
   * match its parent level), `+` for exactly one, and a topic that starts with `$` is not special.
   */
  predicate Matches(f: Path, t: Path) {
    |f| > 0 && |f| <= |t| &&
    if f[|f| - 1] == WELL then LevelsMatch(f[..|f| - 1], t)
    else |f| == |t| && LevelsMatch(f, t)
  }

  /** Level by level: `#` at the end takes what is left, if there is anything, and `+` takes one level. */
  predicate Takes(f: Path, t: Path) {
    && f != [] && t != []
    && (f == ["#"] || ((f[0] == "+" || f[0] == t[0]) && if |f| == 1 then |t| == 1 else Takes(f[1..], t[1..])))
  }

  /** The relation of section 4.7.1 of MQTT 3.1.1, but for `#` and its parent level. */
  lemma {:induction false} MatchesIff(f: Path, t: Path)
    ensures Matches(f, t) <==> Takes(f, t)
  {
    if f != [] && t != [] {
      var n := |f|;
      if n == 1 {
        assert f == [f[0]];
      } else {
        var f', t' := f[1..], t[1..];
        MatchesIff(f', t');
        MatchesFirst(f, t);
      }
    }
  }

  lemma MatchesFirst(f: Path, t: Path)
    requires |f| > 1 && t != []
    ensures Matches(f, t) <==> LevelMatches(f[0], t[0]) && Matches(f[1..], t[1..])
  {
    var f', t', n := f[1..], t[1..], |f|;
    assert f'[|f'| - 1] == f[n - 1];
    if n <= |t| {
      LevelsCons(f, t);
      LevelsCons(f[..n - 1], t);
      assert f[..n - 1][1..] == f'[..n - 2];
    }
  }

  lemma LevelsCons(f: Path, t: Path)
    requires 0 < |f| <= |t|
    ensures LevelsMatch(f, t) <==> LevelMatches(f[0], t[0]) && LevelsMatch(f[1..], t[1..])
  {
    forall i | 1 <= i < |f| ensures f[i] == f[1..][i - 1] && t[i] == t[1..][i - 1] {}
    if LevelMatches(f[0], t[0]) && LevelsMatch(f[1..], t[1..]) {
      forall i | 0 <= i < |f| ensures LevelMatches(f[i], t[i]) {
        if i > 0 { assert LevelMatches(f[1..][i - 1], t[1..][i - 1]); }
      }
    }
  }
}
