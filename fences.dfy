/** Cleaning the language model's reply before it is parsed as JSON: models
    often wrap JSON in a Markdown code fence, so the generator deletes every
    "```json", then every remaining "```", and trims the result
    (server/controllers/quizController.js, lines 46-47). */
module Fences {
  import opened Js

  const Backtick: char := '`'
  const Fence: string := "```"
  const JsonFence: string := "```json"

  /** `s.replace(/pat/g, '')`: deletes the occurrences of `pat` found scanning
      left to right, each match resuming the scan after itself. */
  function RemoveAll(s: string, pat: string): (r: string)
    requires pat != []
    ensures |r| <= |s|
    ensures forall c :: c !in pat ==> multiset(r)[c] == multiset(s)[c]
  {
    if |s| < |pat| then s
    else if s[..|pat|] == pat then
      assert s == pat + s[|pat|..];
      RemoveAll(s[|pat|..], pat)
    else
      assert s == [s[0]] + s[1..];
      [s[0]] + RemoveAll(s[1..], pat)
  }

  predicate StartsWithFence(s: string) {
    |s| >= 3 && s[0] == Backtick && s[1] == Backtick && s[2] == Backtick
  }

  /** No three backticks in a row anywhere in `s`. */
  predicate FenceFree(s: string) {
    forall i :: 0 <= i < |s| ==> !StartsWithFence(s[i..])
  }

  predicate StartsWithTwoBackticks(s: string) {
    |s| >= 2 && s[0] == Backtick && s[1] == Backtick
  }

  /** The whole cleaning step applied to the reply's text. */
  function StripFences(raw: string): string {
    Trim(RemoveAll(RemoveAll(raw, JsonFence), Fence))
  }

  /** A string that does not start with a fence keeps its first character. */
  lemma KeepsFirst(s: string)
    requires s != [] && !StartsWithFence(s)
    ensures RemoveAll(s, Fence) != [] && RemoveAll(s, Fence)[0] == s[0]
  {
    assert |s| >= 3 ==> s[..3] != Fence;
  }

  /** Deleting fences never leaves three backticks in a row: a run of backticks
      loses whole triples and keeps fewer than three, and runs never merge
      because only backticks are deleted. */
  lemma {:induction false} RemoveFencesIsFenceFree(s: string)
    ensures FenceFree(RemoveAll(s, Fence))
    decreases |s|
  {
    var r := RemoveAll(s, Fence);
    if |s| < 3 {
      assert r == s;
    } else if s[..3] == Fence {
      RemoveFencesIsFenceFree(s[3..]);
    } else {
      var rest := RemoveAll(s[1..], Fence);
      assert r == [s[0]] + rest;
      RemoveFencesIsFenceFree(s[1..]);
      // The tail cannot begin with two backticks when s[0] is one.
      assert s[0] == Backtick ==> !StartsWithTwoBackticks(rest) by {
        if s[0] == Backtick {
          if s[1] != Backtick {
            KeepsFirst(s[1..]);
          } else {
            assert s[2] != Backtick;
            var t := s[1..];
            assert !StartsWithFence(t);
            if |t| < 3 {
              assert rest == t;
            } else {
              assert t[..3] != Fence;
              assert rest == [t[0]] + RemoveAll(t[1..], Fence);
              KeepsFirst(t[1..]);
            }
          }
        }
      }
      forall i | 0 <= i < |r|
        ensures !StartsWithFence(r[i..])
      {
        if i > 0 {
          assert r[i..] == rest[i - 1..];
        }
      }
    }
  }

  /** A slice of a fence-free string is fence-free. */
  lemma SliceFenceFree(s: string, i: nat, j: nat)
    requires i <= j <= |s| && FenceFree(s)
    ensures FenceFree(s[i..j])
  {
    var t := s[i..j];
    forall k | 0 <= k < |t|
      ensures !StartsWithFence(t[k..])
    {
      assert !StartsWithFence(s[i + k..]);
    }
  }

  /** Trimming a fence-free string leaves it fence-free. */
  lemma TrimFenceFree(s: string)
    requires FenceFree(s)
    ensures FenceFree(Trim(s))
  {
    TrimSlice(s);
    var a := LeadingWhitespace(s);
    SliceFenceFree(s, a, a + |Trim(s)|);
  }

  /** The cleaned text has no code fence left in it and no surrounding whitespace. */
  lemma StripFencesClean(raw: string)
    ensures FenceFree(StripFences(raw)) && IsTrimmed(StripFences(raw))
  {
    RemoveFencesIsFenceFree(RemoveAll(raw, JsonFence));
    TrimFenceFree(RemoveAll(RemoveAll(raw, JsonFence), Fence));
  }

  /** Deleting a pattern that begins with a backtick changes nothing in a text without backticks. */
  lemma {:induction false} RemoveAllNoBackticks(s: string, pat: string)
    requires pat != [] && pat[0] == Backtick
    requires forall i :: 0 <= i < |s| ==> s[i] != Backtick
    ensures RemoveAll(s, pat) == s
    decreases |s|
  {
    if |s| >= |pat| {
      assert s[..|pat|][0] != pat[0];
      RemoveAllNoBackticks(s[1..], pat);
    }
  }

  /** Deleting a pattern that begins with a backtick keeps a backtick-free prefix as it is. */
  lemma {:induction false} RemoveAllKeepsPrefix(j: string, t: string, pat: string)
    requires pat != [] && pat[0] == Backtick
    requires forall i :: 0 <= i < |j| ==> j[i] != Backtick
    ensures RemoveAll(j + t, pat) == j + RemoveAll(t, pat)
    decreases |j|
  {
    if j == [] {
      assert j + t == t;
    } else {
      var s := j + t;
      if |s| < |pat| {
        assert RemoveAll(t, pat) == t;
        assert RemoveAll(s, pat) == s;
      } else {
        assert s[..|pat|][0] != pat[0];
        assert s[1..] == j[1..] + t;
        RemoveAllKeepsPrefix(j[1..], t, pat);
        assert RemoveAll(s, pat) == [j[0]] + (j[1..] + RemoveAll(t, pat));
        assert j == [j[0]] + j[1..];
        assert [j[0]] + (j[1..] + RemoveAll(t, pat)) == j + RemoveAll(t, pat);
      }
    }
  }

  /** A reply wrapped in a json code fence is cleaned to its trimmed content. */
  lemma StripFencesOfFencedJson(j: string)
    requires forall i :: 0 <= i < |j| ==> j[i] != Backtick
    ensures StripFences(JsonFence + j + Fence) == Trim(j)
  {
    var raw := JsonFence + j + Fence;
    assert raw[..|JsonFence|] == JsonFence;
    assert raw[|JsonFence|..] == j + Fence;
    RemoveAllKeepsPrefix(j, Fence, JsonFence);
    assert RemoveAll(Fence, JsonFence) == Fence;
    assert RemoveAll(raw, JsonFence) == j + Fence;
    RemoveAllKeepsPrefix(j, Fence, Fence);
    assert Fence[..|Fence|] == Fence && Fence[|Fence|..] == [];
    assert RemoveAll(Fence, Fence) == [];
    assert RemoveAll(j + Fence, Fence) == j;
  }

  /** A reply that is already bare JSON (no backticks, no surrounding whitespace) is passed on unchanged. */
  lemma StripFencesOfBareJson(raw: string)
    requires forall i :: 0 <= i < |raw| ==> raw[i] != Backtick
    requires IsTrimmed(raw)
    ensures StripFences(raw) == raw
  {
    RemoveAllNoBackticks(raw, JsonFence);
    RemoveAllNoBackticks(raw, Fence);
    TrimOfTrimmed(raw);
  }
}
