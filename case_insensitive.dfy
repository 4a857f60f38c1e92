/**
 * Case-insensitive search and replace on strings, as `translateToUrdu` uses them:
 * `s.toLowerCase().includes(k.toLowerCase())` for the test and
 * `s.replace(new RegExp(k, 'gi'), phrase)` for the substitution.
 * Lower-casing is ASCII only; every other character is its own lower case.
 */
module CaseInsensitive {
  import opened Wrappers

  function Lower(c: char): char
  {
    if 'A' <= c <= 'Z' then (c as int + 32) as char else c
  }

  /** `s.toLowerCase()`, character by character. */
  function LowerStr(s: string): (r: string)
    ensures |r| == |s|
  {
    seq(|s|, i requires 0 <= i < |s| => Lower(s[i]))
  }

  lemma LowerStrSlice(s: string, i: nat, j: nat)
    requires i <= j <= |s|
    ensures LowerStr(s)[i..j] == LowerStr(s[i..j])
  {
  }

  /** `t.includes(p)`: scans t from the left for an exact copy of p. */
  function Includes(t: string, p: string): bool
    decreases |t|
  {
    if |t| < |p| then false
    else if t[..|p|] == p then true
    else Includes(t[1..], p)
  }

  /** p is an exact block of t starting at position i. */
  ghost predicate OccursAt(t: string, p: string, i: int)
  {
    0 <= i && i + |p| <= |t| && t[i..i + |p|] == p
  }

  /** The left-to-right scan finds p exactly when p occurs somewhere in t. */
  lemma {:induction false} IncludesIff(t: string, p: string)
    ensures Includes(t, p) <==> exists i :: OccursAt(t, p, i)
    decreases |t|
  {
    if |t| < |p| {
      assert forall i :: !OccursAt(t, p, i);
    } else if t[..|p|] == p {
      assert OccursAt(t, p, 0);
    } else {
      IncludesIff(t[1..], p);
      forall i | OccursAt(t[1..], p, i) ensures OccursAt(t, p, i + 1) {
        assert t[1..][i..i + |p|] == t[i + 1..i + 1 + |p|];
      }
      forall i | OccursAt(t, p, i) ensures i >= 1 && OccursAt(t[1..], p, i - 1) {
        assert i != 0;
        assert t[1..][i - 1..i - 1 + |p|] == t[i..i + |p|];
      }
    }
  }

  /** The case-insensitive test of `translateToUrdu`. */
  predicate ContainsCI(s: string, key: string)
  {
    Includes(LowerStr(s), LowerStr(key))
  }

  /** Equality up to case, compared character by character as the 'i' regex flag does. */
  predicate EqualsCI(a: string, b: string)
    decreases |a|
  {
    |a| == |b| && (a == [] || (Lower(a[0]) == Lower(b[0]) && EqualsCI(a[1..], b[1..])))
  }

  lemma {:induction false} EqualsCIIff(a: string, b: string)
    ensures EqualsCI(a, b) <==> |a| == |b| && forall k :: 0 <= k < |a| ==> Lower(a[k]) == Lower(b[k])
    decreases |a|
  {
    if a != [] && |a| == |b| {
      EqualsCIIff(a[1..], b[1..]);
      if forall k :: 0 <= k < |a| ==> Lower(a[k]) == Lower(b[k]) {
        assert forall k :: 0 <= k < |a| - 1 ==> Lower(a[1..][k]) == Lower(b[1..][k]);
      }
      if EqualsCI(a, b) {
        forall k | 0 <= k < |a| ensures Lower(a[k]) == Lower(b[k]) {
          if k > 0 {
            assert a[k] == a[1..][k - 1] && b[k] == b[1..][k - 1];
          }
        }
      }
    }
  }

  /** Comparing the lower-cased strings is the same as comparing up to case. */
  lemma LowerStrEqIff(a: string, b: string)
    ensures LowerStr(a) == LowerStr(b) <==> EqualsCI(a, b)
  {
    EqualsCIIff(a, b);
    if |a| == |b| && LowerStr(a) == LowerStr(b) {
      forall k | 0 <= k < |a| ensures Lower(a[k]) == Lower(b[k]) {
        assert LowerStr(a)[k] == LowerStr(b)[k];
      }
    }
  }

  /** A case-insensitive match of key at position i of s. */
  predicate MatchAt(s: string, key: string, i: int)
  {
    0 <= i && i + |key| <= |s| && EqualsCI(s[i..i + |key|], key)
  }

  /** Lower-casing the whole string and then searching agrees with matching position by position. */
  lemma ContainsIffMatch(s: string, key: string)
    ensures ContainsCI(s, key) <==> exists i :: MatchAt(s, key, i)
  {
    IncludesIff(LowerStr(s), LowerStr(key));
    forall i | 0 <= i && i + |key| <= |s|
      ensures OccursAt(LowerStr(s), LowerStr(key), i) <==> MatchAt(s, key, i)
    {
      LowerStrSlice(s, i, i + |key|);
      LowerStrEqIff(s[i..i + |key|], key);
    }
  }

  lemma MatchShift(s: string, key: string, i: int)
    requires |s| >= 1 && i >= 0
    ensures MatchAt(s[1..], key, i) <==> MatchAt(s, key, i + 1)
  {
    if i + |key| <= |s| - 1 {
      assert s[1..][i..i + |key|] == s[i + 1..i + 1 + |key|];
    }
  }

  /** The position where a left-to-right case-insensitive search first finds key. */
  function FirstMatch(s: string, key: string): (r: Option<nat>)
    ensures r.Some? ==> r.value + |key| <= |s|
    decreases |s|
  {
    if |s| < |key| then None
    else if MatchAt(s, key, 0) then Some(0)
    else
      match FirstMatch(s[1..], key)
      case None => None
      case Some(i) => Some(i + 1)
  }

  /** The search reports the leftmost match, and reports none only when there is none. */
  lemma {:induction false} FirstMatchSpec(s: string, key: string)
    ensures FirstMatch(s, key).None? ==> forall i :: !MatchAt(s, key, i)
    ensures FirstMatch(s, key).Some? ==> MatchAt(s, key, FirstMatch(s, key).value)
    ensures FirstMatch(s, key).Some? ==> forall j :: 0 <= j < FirstMatch(s, key).value ==> !MatchAt(s, key, j)
    decreases |s|
  {
    if |s| >= |key| && !MatchAt(s, key, 0) {
      FirstMatchSpec(s[1..], key);
      forall i | i >= 0 ensures MatchAt(s[1..], key, i) <==> MatchAt(s, key, i + 1) {
        MatchShift(s, key, i);
      }
      assert forall i :: MatchAt(s, key, i) ==> i == 0 || MatchAt(s[1..], key, i - 1);
    }
  }

  lemma FirstMatchStep(s: string, key: string)
    requires |s| >= |key| && !MatchAt(s, key, 0)
    ensures FirstMatch(s, key) ==
      if FirstMatch(s[1..], key).None? then None else Some(FirstMatch(s[1..], key).value + 1)
  {
  }

  /**
   * `s.replace(new RegExp(key, 'gi'), phrase)`: every case-insensitive, non-overlapping
   * occurrence of key, found left to right, is replaced by `phrase`.
   */
  function ReplaceAllCI(s: string, key: string, phrase: string): string
    requires key != ""
    decreases |s|
  {
    if |s| < |key| then s
    else if MatchAt(s, key, 0) then phrase + ReplaceAllCI(s[|key|..], key, phrase)
    else [s[0]] + ReplaceAllCI(s[1..], key, phrase)
  }

  /** With no match, the replacement gives the string back unchanged. */
  lemma {:induction false} ReplaceWithoutFirstMatch(s: string, key: string, phrase: string)
    requires key != "" && FirstMatch(s, key).None?
    ensures ReplaceAllCI(s, key, phrase) == s
    decreases |s|
  {
    if |s| >= |key| {
      FirstMatchStep(s, key);
      ReplaceWithoutFirstMatch(s[1..], key, phrase);
      assert [s[0]] + s[1..] == s;
    }
  }

  /**
   * The replacement keeps everything before the first match, puts `phrase` in place of that
   * match and carries on after it.
   */
  lemma {:induction false} ReplaceAtFirstMatch(s: string, key: string, phrase: string, i: nat)
    requires key != "" && FirstMatch(s, key) == Some(i)
    ensures ReplaceAllCI(s, key, phrase) == s[..i] + (phrase + ReplaceAllCI(s[i + |key|..], key, phrase))
    decreases |s|
  {
    if MatchAt(s, key, 0) {
      ReplaceAtStart(s, key, phrase);
    } else {
      FirstMatchStep(s, key);
      assert FirstMatch(s[1..], key) == Some(i - 1);
      ReplaceAtFirstMatch(s[1..], key, phrase, i - 1);
      ReplaceAfterSkip(s, key, phrase, i);
    }
  }

  /** One step of `ReplaceAtFirstMatch` past a position where key does not match. */
  lemma ReplaceAfterSkip(s: string, key: string, phrase: string, i: nat)
    requires key != "" && !MatchAt(s, key, 0) && 1 <= i && i + |key| <= |s|
    requires ReplaceAllCI(s[1..], key, phrase) ==
      s[1..][..i - 1] + (phrase + ReplaceAllCI(s[1..][i - 1 + |key|..], key, phrase))
    ensures ReplaceAllCI(s, key, phrase) == s[..i] + (phrase + ReplaceAllCI(s[i + |key|..], key, phrase))
  {
  }

  lemma ReplaceAtStart(s: string, key: string, phrase: string)
    requires key != "" && MatchAt(s, key, 0)
    ensures ReplaceAllCI(s, key, phrase) == s[..0] + (phrase + ReplaceAllCI(s[0 + |key|..], key, phrase))
  {
  }

  /** The search succeeds exactly when the includes test does. */
  lemma ContainsIffFirstMatch(s: string, key: string)
    ensures ContainsCI(s, key) <==> FirstMatch(s, key).Some?
  {
    ContainsIffMatch(s, key);
    FirstMatchSpec(s, key);
  }

  /** Without a case-insensitive occurrence of key, the replacement is the identity. */
  lemma ReplaceWithoutMatch(s: string, key: string, phrase: string)
    requires key != "" && !ContainsCI(s, key)
    ensures ReplaceAllCI(s, key, phrase) == s
  {
    ContainsIffFirstMatch(s, key);
    ReplaceWithoutFirstMatch(s, key, phrase);
  }

  /** A match is decided character by character. */
  lemma MatchFromChars(s: string, key: string, i: nat)
    requires i + |key| <= |s|
    requires forall k :: 0 <= k < |key| ==> Lower(s[i + k]) == Lower(key[k])
    ensures MatchAt(s, key, i)
  {
    EqualsCIIff(s[i..i + |key|], key);
  }

  /** One differing character rules out a match at that position. */
  lemma NoMatchAt(s: string, key: string, i: nat, k: nat)
    requires k < |key| && (i + |key| <= |s| ==> Lower(s[i + k]) != Lower(key[k]))
    ensures !MatchAt(s, key, i)
  {
    if i + |key| <= |s| {
      EqualsCIIff(s[i..i + |key|], key);
      assert s[i..i + |key|][k] == s[i + k];
    }
  }

  /** A key with a letter that s never has, in any case, does not occur in s. */
  lemma NotContainedWithoutLetter(s: string, key: string, k: nat)
    requires k < |key| && forall m :: 0 <= m < |s| ==> Lower(s[m]) != Lower(key[k])
    ensures !ContainsCI(s, key)
  {
    ContainsIffMatch(s, key);
    forall i | MatchAt(s, key, i) ensures false {
      NoMatchAt(s, key, i, k);
    }
  }
}
