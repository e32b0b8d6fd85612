/**
 * MySQL `LIKE` over the member search patterns of `BP_User_Query`. The search
 * term is escaped before it is wrapped in wildcards, so every character of it
 * is literal: a pattern is a sequence of literal characters and `%` wildcards.
 */
module LikePatterns {

  datatype PatTok = Wild | Lit(c: char)

  /** `s LIKE p`, with `%` matching any run of characters (case-sensitive). */
  predicate Like(s: string, p: seq<PatTok>)
    decreases |s| + |p|
  {
    if |p| == 0 then |s| == 0
    else match p[0]
      case Wild => Like(s, p[1..]) || (|s| > 0 && Like(s[1..], p))
      case Lit(c) => |s| > 0 && s[0] == c && Like(s[1..], p[1..])
  }

  /** The escaped term: one literal per character. */
  function Lits(t: string): (p: seq<PatTok>)
    ensures |p| == |t| && forall k :: 0 <= k < |t| ==> p[k] == Lit(t[k])
  {
    seq(|t|, k requires 0 <= k < |t| => Lit(t[k]))
  }

  predicate StartsWith(s: string, t: string) {
    |t| <= |s| && s[..|t|] == t
  }

  predicate EndsWith(s: string, t: string) {
    |t| <= |s| && s[|s| - |t|..] == t
  }

  predicate Contains(s: string, t: string) {
    exists k :: 0 <= k <= |s| && StartsWith(s[k..], t)
  }

  // ---------------------------------------------------------------------------
  // The two building blocks

  /** A leading wildcard skips any prefix. */
  lemma {:induction false} LikeWildFront(s: string, q: seq<PatTok>)
    ensures Like(s, [Wild] + q) <==> exists k :: 0 <= k <= |s| && Like(s[k..], q)
    decreases |s|
  {
    var p := [Wild] + q;
    assert p[1..] == q;
    if |s| == 0 {
      assert s[0..] == s;
    } else {
      LikeWildFront(s[1..], q);
      if Like(s, p) {
        if !Like(s, q) {
          var k :| 0 <= k <= |s[1..]| && Like(s[1..][k..], q);
          assert s[1..][k..] == s[k + 1..];
        } else {
          assert s[0..] == s;
        }
      } else {
        forall k | 0 <= k <= |s|
          ensures !Like(s[k..], q)
        {
          if k == 0 {
            assert s[0..] == s;
          } else {
            assert s[1..][k - 1..] == s[k..];
          }
        }
      }
    }
  }

  /** A run of literals matches exactly that prefix. */
  lemma {:induction false} LikeLitsThen(s: string, t: string, q: seq<PatTok>)
    ensures Like(s, Lits(t) + q) <==> StartsWith(s, t) && Like(s[|t|..], q)
    decreases |t|
  {
    if |t| == 0 {
      assert Lits(t) + q == q;
    } else {
      var p := Lits(t) + q;
      assert p[0] == Lit(t[0]);
      assert p[1..] == Lits(t[1..]) + q;
      if |s| > 0 {
        LikeLitsThen(s[1..], t[1..], q);
        if |t| <= |s| {
          assert s[1..][|t| - 1..] == s[|t|..];
        }
        if s[0] == t[0] {
          assert StartsWith(s, t) <==> StartsWith(s[1..], t[1..]) by {
            if |t| <= |s| {
              assert s[..|t|] == [s[0]] + s[1..][..|t| - 1];
              assert t == [t[0]] + t[1..];
            }
          }
        }
      }
    }
  }

  lemma LikeEmpty(s: string)
    ensures Like(s, []) <==> s == ""
  {
  }

  lemma LikeAnything(s: string)
    ensures Like(s, [Wild])
  {
    LikeWildFront(s, []);
    assert Like(s[|s|..], []);
  }

  // ---------------------------------------------------------------------------
  // The pattern shapes

  /** `t%` */
  lemma LikePrefix(s: string, t: string)
    ensures Like(s, Lits(t) + [Wild]) <==> StartsWith(s, t)
  {
    LikeLitsThen(s, t, [Wild]);
    if StartsWith(s, t) {
      LikeAnything(s[|t|..]);
    }
  }

  /** `%t` */
  lemma LikeSuffix(s: string, t: string)
    ensures Like(s, [Wild] + Lits(t)) <==> EndsWith(s, t)
  {
    LikeWildFront(s, Lits(t));
    assert Lits(t) + [] == Lits(t);
    if EndsWith(s, t) {
      var k := |s| - |t|;
      LikeLitsThen(s[k..], t, []);
      assert s[k..][|t|..] == [];
      assert s[k..][..|t|] == t;
    }
    if exists k :: 0 <= k <= |s| && Like(s[k..], Lits(t)) {
      var k :| 0 <= k <= |s| && Like(s[k..], Lits(t));
      LikeLitsThen(s[k..], t, []);
      assert s[k..] == t by {
        assert s[k..][|t|..] == [];
        assert s[k..] == s[k..][..|t|] + s[k..][|t|..];
      }
      assert s[|s| - |t|..] == s[k..];
    }
  }

  /** `%t%` */
  lemma LikeInfix(s: string, t: string)
    ensures Like(s, [Wild] + Lits(t) + [Wild]) <==> Contains(s, t)
  {
    assert [Wild] + Lits(t) + [Wild] == [Wild] + (Lits(t) + [Wild]);
    LikeWildFront(s, Lits(t) + [Wild]);
    forall k | 0 <= k <= |s|
      ensures Like(s[k..], Lits(t) + [Wild]) <==> StartsWith(s[k..], t)
    {
      LikePrefix(s[k..], t);
    }
  }

  // ---------------------------------------------------------------------------
  // The search patterns

  /** The two patterns of a search, for the wildcard policy `left`, `right`, or
      anything else (`both`): the one without a space and the one with it. */
  function SearchPatterns(wildcard: string, t: string): (ps: (seq<PatTok>, seq<PatTok>))
  {
    if wildcard == "left" then ([Wild] + Lits(t), [Wild] + Lits(t + " ") + [Wild])
    else if wildcard == "right" then (Lits(t) + [Wild], [Wild] + Lits(" " + t) + [Wild])
    else ([Wild] + Lits(t) + [Wild], [Wild] + Lits(t) + [Wild])
  }

  /** Whether a display name matches either pattern of the search. */
  predicate SearchMatches(name: string, wildcard: string, t: string) {
    var ps := SearchPatterns(wildcard, t);
    Like(name, ps.0) || Like(name, ps.1)
  }

  /** `left`: the term ends the name or ends a word followed by a space. */
  lemma SearchLeft(name: string, t: string)
    ensures SearchMatches(name, "left", t) <==> EndsWith(name, t) || Contains(name, t + " ")
  {
    LikeSuffix(name, t);
    LikeInfix(name, t + " ");
  }

  /** `right`: the term starts the name or starts a word after a space. */
  lemma SearchRight(name: string, t: string)
    ensures SearchMatches(name, "right", t) <==> StartsWith(name, t) || Contains(name, " " + t)
  {
    LikePrefix(name, t);
    LikeInfix(name, " " + t);
  }

  /** Any other policy: the term occurs anywhere in the name. */
  lemma SearchBoth(name: string, wildcard: string, t: string)
    requires wildcard != "left" && wildcard != "right"
    ensures SearchMatches(name, wildcard, t) <==> Contains(name, t)
  {
    LikeInfix(name, t);
  }

  /** A prefix search finds "ann smith", where the name starts with the term. */
  lemma SearchRightFindsPrefix()
    ensures SearchMatches("ann smith", "right", "ann")
  {
    SearchRight("ann smith", "ann");
    assert "ann smith"[..3] == "ann";
  }

  /** A prefix search does not find "joanne", where "ann" is inside the word. */
  lemma SearchRightSkipsInfix()
    ensures !SearchMatches("joanne", "right", "ann")
  {
    SearchRight("joanne", "ann");
    JoanneHasNoSpace(" ann");
  }

  /** "joanne" has no space, so no term with a space occurs in it. */
  lemma JoanneHasNoSpace(t: string)
    requires ' ' in t
    ensures !Contains("joanne", t)
  {
    var s := "joanne";
    assert forall i :: 0 <= i < |s| ==> s[i] != ' ';
    var j :| 0 <= j < |t| && t[j] == ' ';
    forall k | 0 <= k <= |s|
      ensures !StartsWith(s[k..], t)
    {
      if |t| <= |s| - k {
        assert s[k..][..|t|][j] == s[k + j] != t[j];
      }
    }
  }

  /** A suffix search finds "ann smith" through the word "ann". */
  lemma SearchLeftFindsWord()
    ensures SearchMatches("ann smith", "left", "ann")
  {
    SearchLeft("ann smith", "ann");
    assert "ann" + " " == "ann ";
    assert "ann smith"[0..][..4] == "ann ";
  }

  /** A suffix search does not find "joanne", where "ann" is inside the word. */
  lemma SearchLeftSkipsInfix()
    ensures !SearchMatches("joanne", "left", "ann")
  {
    SearchLeft("joanne", "ann");
    assert "joanne"[3..] == "nne";
    JoanneHasNoSpace("ann" + " ");
  }

  /** The default policy finds the term inside a word. */
  lemma SearchBothExample()
    ensures SearchMatches("joanne", "both", "ann")
  {
    SearchBoth("joanne", "both", "ann");
    assert "joanne"[2..][..3] == "ann";
  }
}
