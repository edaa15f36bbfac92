/** SQL LIKE matching and the escaping that makes a term match literally. */
module LikePattern {
  import opened Text

  /** `s LIKE p` with the default escape character: `%` is any run, `_` is any one character.
      A pattern that ends in a lone escape is an error in Postgres and matches nothing here. */
  predicate Like(s: string, p: string)
    decreases |p|, |s|
  {
    if p == "" then s == ""
    else if p[0] == '%' then Like(s, p[1..]) || (s != "" && Like(s[1..], p))
    else if p[0] == '_' then s != "" && Like(s[1..], p[1..])
    else if p[0] == '\\' then |p| > 1 && s != "" && s[0] == p[1] && Like(s[1..], p[2..])
    else s != "" && s[0] == p[0] && Like(s[1..], p[1..])
  }

  /** What the metacharacters mean: a run of any length, */
  lemma {:induction false} PercentIsAnyRun(s: string, p: string)
    ensures Like(s, "%" + p) <==> exists k | 0 <= k <= |s| :: Like(s[k..], p)
    decreases |s|
  {
    assert ("%" + p)[1..] == p && s[0..] == s;
    if s != "" {
      PercentIsAnyRun(s[1..], p);
      assert forall k | 0 < k <= |s| :: s[1..][k - 1..] == s[k..];
      if Like(s[1..], "%" + p) {
        var k :| 0 <= k <= |s[1..]| && Like(s[1..][k..], p);
        assert s[1..][k..] == s[k + 1..];
      }
    }
  }

  /** any one character, or, escaped, just themselves. */
  lemma MetacharactersMean(s: string, p: string, c: char)
    ensures Like(s, "_" + p) <==> s != "" && Like(s[1..], p)
    ensures Like(s, ['\\', c] + p) <==> s != "" && s[0] == c && Like(s[1..], p)
    ensures !IsMeta(c) ==> (Like(s, [c] + p) <==> s != "" && s[0] == c && Like(s[1..], p))
  {
    assert ("_" + p)[1..] == p && ([c] + p)[1..] == p && (['\\', c] + p)[2..] == p;
  }

  /** `s ILIKE p`. */
  predicate ILike(s: string, p: string, fold: char -> char) {
    Like(Fold(s, fold), Fold(p, fold))
  }

  /** `s.replace(c, with)` for a one-character `c`. */
  function Replace(s: string, c: char, with: string): string {
    if s == "" then "" else (if s[0] == c then with else [s[0]]) + Replace(s[1..], c, with)
  }

  /** Three passes, the escape character first. */
  function LikeEscape(term: string): string {
    Replace(Replace(Replace(term, '\\', "\\\\"), '%', "\\%"), '_', "\\_")
  }

  predicate IsMeta(c: char) { c == '\\' || c == '%' || c == '_' }

  /** What the three passes are meant to compute: one escape before each metacharacter. */
  function EscapeEach(term: string): string {
    if term == "" then ""
    else (if IsMeta(term[0]) then ['\\', term[0]] else [term[0]]) + EscapeEach(term[1..])
  }

  lemma {:induction false} ReplaceConcat(a: string, b: string, c: char, with: string)
    ensures Replace(a + b, c, with) == Replace(a, c, with) + Replace(b, c, with)
  {
    if a == "" {
      assert a + b == b;
    } else {
      var first := if a[0] == c then with else [a[0]];
      ReplaceConcat(a[1..], b, c, with);
      assert (a + b)[0] == a[0] && (a + b)[1..] == a[1..] + b;
      assert Replace(a + b, c, with) == first + Replace(a[1..] + b, c, with);
    }
  }

  lemma ReplaceOne(x: char, c: char, with: string)
    ensures Replace([x], c, with) == if x == c then with else [x]
  {
    assert [x][1..] == "";
  }

  /** The passes do not disturb each other: the result is the character-wise escape. */
  lemma {:induction false} EscapeIsCharacterwise(term: string)
    ensures LikeEscape(term) == EscapeEach(term)
  {
    if term != "" {
      var head, rest := [term[0]], term[1..];
      assert term == head + rest;
      var head1 := Replace(head, '\\', "\\\\");
      var head2 := Replace(head1, '%', "\\%");
      ReplaceConcat(head, rest, '\\', "\\\\");
      ReplaceConcat(head1, Replace(rest, '\\', "\\\\"), '%', "\\%");
      ReplaceConcat(head2, Replace(Replace(rest, '\\', "\\\\"), '%', "\\%"), '_', "\\_");
      EscapeOfOne(term[0]);
      EscapeIsCharacterwise(rest);
    }
  }

  lemma EscapeOfOne(c: char)
    ensures LikeEscape([c]) == if IsMeta(c) then ['\\', c] else [c]
  {
    ReplaceOne(c, '\\', "\\\\");
    if c == '\\' {
      assert "\\\\" == ['\\'] + ['\\'];
      ReplaceConcat(['\\'], ['\\'], '%', "\\%");
      ReplaceOne('\\', '%', "\\%");
      ReplaceConcat(['\\'], ['\\'], '_', "\\_");
      ReplaceOne('\\', '_', "\\_");
    } else {
      ReplaceOne(c, '%', "\\%");
      if c == '%' {
        assert "\\%" == ['\\'] + ['%'];
        ReplaceConcat(['\\'], ['%'], '_', "\\_");
        ReplaceOne('\\', '_', "\\_");
        ReplaceOne('%', '_', "\\_");
      } else {
        ReplaceOne(c, '_', "\\_");
      }
    }
  }

  /** An escaped term consumes exactly itself. */
  lemma {:induction false} EscapedTermIsLiteral(s: string, t: string, p: string)
    ensures Like(s, EscapeEach(t) + p) <==> t <= s && Like(s[|t|..], p)
  {
    if t == "" {
      assert EscapeEach(t) + p == p;
    } else {
      var whole := EscapeEach(t) + p;
      var tail := EscapeEach(t[1..]) + p;
      assert whole == (if IsMeta(t[0]) then ['\\', t[0]] else [t[0]]) + tail;
      if s != "" {
        EscapedTermIsLiteral(s[1..], t[1..], p);
        assert t <= s <==> s[0] == t[0] && t[1..] <= s[1..] by {
          assert t == [t[0]] + t[1..] && s == [s[0]] + s[1..];
        }
        if t <= s {
          assert s[1..][|t[1..]|..] == s[|t|..];
        }
        if IsMeta(t[0]) {
          assert whole[0] == '\\' && whole[1] == t[0] && whole[2..] == tail;
        } else {
          assert whole[0] == t[0] && whole[1..] == tail;
        }
      }
    }
  }

  lemma {:induction false} AnythingMatchesPercent(s: string)
    ensures Like(s, "%")
  {
    assert "%"[1..] == "";
    if s != "" {
      AnythingMatchesPercent(s[1..]);
    }
  }

  /** `s LIKE escape(t) || '%'` is exactly `s.startswith(t)`, for every pair of strings. */
  lemma EscapedPrefixMatch(s: string, t: string)
    ensures Like(s, LikeEscape(t) + "%") <==> t <= s
  {
    EscapeIsCharacterwise(t);
    EscapedTermIsLiteral(s, t, "%");
    if t <= s {
      AnythingMatchesPercent(s[|t|..]);
    }
  }

  /** `s LIKE '%' || escape(t) || '%'` is exactly `t in s`, for every pair of strings. */
  lemma {:induction false} EscapedSubstringMatch(s: string, t: string)
    ensures Like(s, "%" + LikeEscape(t) + "%") <==> Contains(s, t)
  {
    var p := "%" + LikeEscape(t) + "%";
    assert p[1..] == LikeEscape(t) + "%";
    EscapedPrefixMatch(s, t);
    assert s[0..] == s;
    if s != "" {
      EscapedSubstringMatch(s[1..], t);
      ContainsStep(s, t);
    }
  }

  lemma ContainsStep(s: string, t: string)
    requires s != ""
    ensures Contains(s, t) <==> t <= s || Contains(s[1..], t)
  {
    assert s[0..] == s;
    forall k | 0 <= k < |s| ensures s[1..][k..] == s[k + 1..] {}
    if Contains(s, t) {
      var k :| 0 <= k <= |s| && t <= s[k..];
      if k > 0 {
        assert t <= s[1..][k - 1..];
      }
    }
    if Contains(s[1..], t) {
      var k :| 0 <= k <= |s[1..]| && t <= s[1..][k..];
      assert t <= s[k + 1..];
    }
  }

  /** Text without metacharacters needs no escaping. */
  lemma {:induction false} EscapeOfPlainText(t: string)
    requires forall i | 0 <= i < |t| :: !IsMeta(t[i])
    ensures LikeEscape(t) == t
  {
    EscapeIsCharacterwise(t);
    if t != "" {
      EscapeOfPlainText(t[1..]);
      EscapeIsCharacterwise(t[1..]);
      assert t == [t[0]] + t[1..];
    }
  }

  lemma PlainPrefixMatch(s: string, t: string)
    requires forall i | 0 <= i < |t| :: !IsMeta(t[i])
    ensures Like(s, t + "%") <==> t <= s
  {
    EscapeOfPlainText(t);
    EscapedPrefixMatch(s, t);
  }
}
