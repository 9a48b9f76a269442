/**
 * The three string operations the tag detection uses, as Go's `strings` package defines them:
 * `Split(s, "\n")`, `Trim(s, "/ ")` and `Contains(s, sub)`.
 */
module Text {

  /** The pieces joined back with newlines. */
  function Join(lines: seq<string>): (s: string)
    requires |lines| >= 1
    decreases |lines|
  {
    if |lines| == 1 then lines[0] else lines[0] + "\n" + Join(lines[1..])
  }

  /** `strings.Split(s, "\n")`: the pieces between newlines; "" gives [""]. */
  function SplitLines(s: string): (r: seq<string>)
    ensures |r| >= 1
    decreases |s|
  {
    if |s| == 0 then [""]
    else
      var rest := SplitLines(s[1..]);
      if s[0] == '\n' then [""] + rest
      else [[s[0]] + rest[0]] + rest[1..]
  }

  /** The pieces are newline-free and joining them with newlines gives the text back. */
  lemma {:induction false} SplitLinesJoin(s: string)
    ensures Join(SplitLines(s)) == s
    ensures forall i :: 0 <= i < |SplitLines(s)| ==> '\n' !in SplitLines(s)[i]
    decreases |s|
  {
    if |s| > 0 {
      var rest := SplitLines(s[1..]);
      SplitLinesJoin(s[1..]);
      var r := SplitLines(s);
      assert s == [s[0]] + s[1..];
      if s[0] == '\n' {
        assert r[1..] == rest;
      } else {
        assert r[1..] == rest[1..];
        assert forall i :: 1 <= i < |r| ==> r[i] == rest[i];
      }
    }
  }

  /** The characters `strings.Trim(l, "/ ")` removes. */
  const Cutset: set<char> := {'/', ' '}

  /** Drops leading cutset characters. */
  function TrimLeft(s: string): (r: string)
    decreases |s|
  {
    if |s| > 0 && s[0] in Cutset then TrimLeft(s[1..]) else s
  }

  /** Drops trailing cutset characters. */
  function TrimRight(s: string): (r: string)
    decreases |s|
  {
    if |s| > 0 && s[|s| - 1] in Cutset then TrimRight(s[..|s| - 1]) else s
  }

  /** `TrimLeft(s)` is the suffix of `s` after its longest run of leading cutset characters. */
  lemma {:induction false} TrimLeftShape(s: string)
    ensures var r := TrimLeft(s);
      && |r| <= |s| && r == s[|s| - |r|..]
      && (forall i :: 0 <= i < |s| - |r| ==> s[i] in Cutset)
      && (|r| > 0 ==> r[0] !in Cutset)
    decreases |s|
  {
    if |s| > 0 && s[0] in Cutset {
      TrimLeftShape(s[1..]);
    }
  }

  /** `TrimRight(s)` is the prefix of `s` before its longest run of trailing cutset characters. */
  lemma {:induction false} TrimRightShape(s: string)
    ensures var r := TrimRight(s);
      && |r| <= |s| && r == s[..|r|]
      && (forall i :: |r| <= i < |s| ==> s[i] in Cutset)
      && (|r| > 0 ==> r[|r| - 1] !in Cutset)
    decreases |s|
  {
    if |s| > 0 && s[|s| - 1] in Cutset {
      TrimRightShape(s[..|s| - 1]);
    }
  }

  /** `strings.Trim(s, "/ ")`: leading, then trailing cutset characters removed. */
  function Trim(s: string): (r: string) {
    TrimRight(TrimLeft(s))
  }

  /** `m` occurs in `s` starting at position `i`. */
  predicate OccursAt(s: string, m: string, i: int) {
    0 <= i && i + |m| <= |s| && s[i..i + |m|] == m
  }

  /** `strings.Contains(s, m)`. */
  predicate Contains(s: string, m: string) {
    exists i | 0 <= i <= |s| - |m| :: OccursAt(s, m, i)
  }

  lemma OccursInConcat(a: string, b: string, m: string, i: int)
    ensures i + |m| <= |a| ==> (OccursAt(a + b, m, i) <==> OccursAt(a, m, i))
    ensures |a| <= i ==> (OccursAt(a + b, m, i) <==> OccursAt(b, m, i - |a|))
  {
  }

  /** An occurrence that straddles the newline between `p` and `rest` has a newline in the pattern. */
  lemma OccurrenceAcrossNewline(p: string, rest: string, m: string, i: int)
    requires OccursAt(p + "\n" + rest, m, i)
    ensures i + |m| <= |p| || |p| < i || m[|p| - i] == '\n'
  {
  }

  /** A newline-free pattern occurs around a newline exactly when it occurs on one side of it. */
  lemma ContainsAroundNewline(p: string, rest: string, m: string)
    requires '\n' !in m
    ensures Contains(p + "\n" + rest, m) <==> Contains(p, m) || Contains(rest, m)
  {
    var j := p + "\n" + rest;
    assert j == p + ("\n" + rest);
    if Contains(j, m) {
      var i :| 0 <= i <= |j| - |m| && OccursAt(j, m, i);
      OccurrenceAcrossNewline(p, rest, m, i);
      if i + |m| <= |p| {
        OccursInConcat(p, "\n" + rest, m, i);
        assert OccursAt(p, m, i);
      } else {
        OccursInConcat(p + "\n", rest, m, i);
        assert OccursAt(rest, m, i - |p| - 1);
      }
    }
    if Contains(p, m) {
      var i :| 0 <= i <= |p| - |m| && OccursAt(p, m, i);
      OccursInConcat(p, "\n" + rest, m, i);
      assert OccursAt(j, m, i);
    }
    if Contains(rest, m) {
      var i :| 0 <= i <= |rest| - |m| && OccursAt(rest, m, i);
      OccursInConcat(p + "\n", rest, m, i + |p| + 1);
      assert OccursAt(j, m, i + |p| + 1);
    }
  }

  /** A newline-free pattern occurs in newline-joined, newline-free pieces exactly when it occurs in one piece. */
  lemma {:induction false} ContainsJoin(ps: seq<string>, m: string)
    requires |ps| >= 1
    requires forall i :: 0 <= i < |ps| ==> '\n' !in ps[i]
    requires '\n' !in m
    ensures Contains(Join(ps), m) <==> exists k :: 0 <= k < |ps| && Contains(ps[k], m)
    decreases |ps|
  {
    if |ps| > 1 {
      ContainsJoin(ps[1..], m);
      ContainsAroundNewline(ps[0], Join(ps[1..]), m);
      if exists k :: 0 <= k < |ps| && Contains(ps[k], m) {
        var k :| 0 <= k < |ps| && Contains(ps[k], m);
        if k > 0 {
          assert ps[1..][k - 1] == ps[k];
        }
      }
      if Contains(Join(ps[1..]), m) {
        var k :| 0 <= k < |ps[1..]| && Contains(ps[1..][k], m);
        assert Contains(ps[k + 1], m);
      }
    }
  }

  /** Dropping a first character that the pattern does not start with keeps its occurrences. */
  lemma ContainsDropFirst(s: string, m: string)
    requires |s| > 0 && |m| > 0 && s[0] != m[0]
    ensures Contains(s[1..], m) <==> Contains(s, m)
  {
    assert s == [s[0]] + s[1..];
    if Contains(s, m) {
      var i :| 0 <= i <= |s| - |m| && OccursAt(s, m, i);
      assert s[i] == s[i..i + |m|][0] == m[0];
      OccursInConcat([s[0]], s[1..], m, i);
      assert OccursAt(s[1..], m, i - 1);
    }
    if Contains(s[1..], m) {
      var i :| 0 <= i <= |s[1..]| - |m| && OccursAt(s[1..], m, i);
      OccursInConcat([s[0]], s[1..], m, i + 1);
      assert OccursAt(s, m, i + 1);
    }
  }

  /** Dropping a last character that the pattern does not end with keeps its occurrences. */
  lemma ContainsDropLast(s: string, m: string)
    requires |s| > 0 && |m| > 0 && s[|s| - 1] != m[|m| - 1]
    ensures Contains(s[..|s| - 1], m) <==> Contains(s, m)
  {
    var init := s[..|s| - 1];
    assert s == init + [s[|s| - 1]];
    if Contains(s, m) {
      var i :| 0 <= i <= |s| - |m| && OccursAt(s, m, i);
      assert s[i + |m| - 1] == s[i..i + |m|][|m| - 1] == m[|m| - 1];
      OccursInConcat(init, [s[|s| - 1]], m, i);
      assert OccursAt(init, m, i);
    }
    if Contains(init, m) {
      var i :| 0 <= i <= |init| - |m| && OccursAt(init, m, i);
      OccursInConcat(init, [s[|s| - 1]], m, i);
      assert OccursAt(s, m, i);
    }
  }

  /** A pattern that does not start with a cutset character occurs in `s` exactly when it occurs in `TrimLeft(s)`. */
  lemma {:induction false} ContainsTrimLeft(s: string, m: string)
    requires |m| > 0 && m[0] !in Cutset
    ensures Contains(TrimLeft(s), m) <==> Contains(s, m)
    decreases |s|
  {
    if |s| > 0 && s[0] in Cutset {
      ContainsTrimLeft(s[1..], m);
      ContainsDropFirst(s, m);
    }
  }

  /** A pattern that does not end with a cutset character occurs in `s` exactly when it occurs in `TrimRight(s)`. */
  lemma {:induction false} ContainsTrimRight(s: string, m: string)
    requires |m| > 0 && m[|m| - 1] !in Cutset
    ensures Contains(TrimRight(s), m) <==> Contains(s, m)
    decreases |s|
  {
    if |s| > 0 && s[|s| - 1] in Cutset {
      ContainsTrimRight(s[..|s| - 1], m);
      ContainsDropLast(s, m);
    }
  }

  /** Trimming "/" and " " never hides nor creates an occurrence of a pattern that neither starts nor ends with one of them. */
  lemma ContainsTrim(s: string, m: string)
    requires |m| > 0 && m[0] !in Cutset && m[|m| - 1] !in Cutset
    ensures Contains(Trim(s), m) <==> Contains(s, m)
  {
    ContainsTrimLeft(s, m);
    ContainsTrimRight(TrimLeft(s), m);
  }
}
