// What the relay's redaction is for: the secret does not appear in what the client receives. Replacement text
// can spell part of a secret, so this has an exact condition on the secret alone.
module RedactorSecrecy {
  import opened Redactor

  // The secret, placed `d` bytes after the start of replacement text (before it when negative), agrees with it.
  predicate Agrees(secret: Bytes, d: int)
  {
    forall k :: 0 <= k < |secret| && 0 <= d + k < |REPLACEMENT| ==> secret[k] == REPLACEMENT[d + k]
  }

  // The secret after its own first `n` bytes is not found any earlier.
  predicate StartsAfresh(secret: Bytes, n: nat)
    requires n <= |secret|
  {
    var twice := secret[..n] + secret;
    forall i: nat :: i < n ==> !MatchesAt(twice, secret, i)
  }

  // The secret overlaps replacement text in this way, and when it starts before it, the received bytes that
  // would produce it contain no earlier match that would have been replaced first.
  predicate CanShow(secret: Bytes, d: int)
  {
    && -|secret| < d < |REPLACEMENT| && Agrees(secret, d)
    && (d < 0 ==> StartsAfresh(secret, 0 - d))
  }

  ghost predicate NeverShown(secret: Bytes)
  {
    forall d :: !CanShow(secret, d)
  }

  // ---------------------------------------------------------------- redacted text hides the secret

  lemma {:induction false} LeastMatch(text: Bytes, secret: Bytes) returns (n: nat)
    requires secret != []
    ensures n <= |text| && (n < |text| ==> MatchesAt(text, secret, n))
    ensures forall i: nat :: i < n ==> !MatchesAt(text, secret, i)
  {
    n := 0;
    while n < |text| && !MatchesAt(text, secret, n)
      invariant n <= |text|
      invariant forall i: nat :: i < n ==> !MatchesAt(text, secret, i)
    {
      n := n + 1;
    }
  }

  lemma {:induction false} FirstReplaced(text: Bytes, secret: Bytes, n: nat)
    requires secret != [] && MatchesAt(text, secret, n) && forall i: nat :: i < n ==> !MatchesAt(text, secret, i)
    ensures ReplaceAll(text, secret) == text[..n] + REPLACEMENT + ReplaceAll(text[n + |secret|..], secret)
  {
    CopiesUpTo(text, secret, n);
    var rest := text[n..];
    assert rest[..|secret|] == text[n..n + |secret|] && rest[|secret|..] == text[n + |secret|..];
    assert ReplaceAll(rest, secret) == REPLACEMENT + ReplaceAll(rest[|secret|..], secret);
    hide ReplaceAll;
    assert text[..n] + (REPLACEMENT + ReplaceAll(text[n + |secret|..], secret))
        == text[..n] + REPLACEMENT + ReplaceAll(text[n + |secret|..], secret);
  }

  // An occurrence that begins within the first replacement text.
  lemma {:induction false} BeginsInside(front: Bytes, rest: Bytes, secret: Bytes, i: nat)
    requires MatchesAt(front + REPLACEMENT + rest, secret, i) && |front| <= i < |front| + |REPLACEMENT| && secret != []
    ensures CanShow(secret, i - |front|)
  {
    var out := front + REPLACEMENT + rest;
    forall k | 0 <= k < |secret| && i - |front| + k < |REPLACEMENT|
      ensures secret[k] == REPLACEMENT[i - |front| + k]
    {
      assert out[i..i + |secret|][k] == out[i + k];
    }
  }

  // An occurrence that begins before it and reaches into it.
  lemma {:induction false} BeginsBefore(text: Bytes, n: nat, rest: Bytes, secret: Bytes, i: nat)
    requires MatchesAt(text, secret, n) && forall j: nat :: j < n ==> !MatchesAt(text, secret, j)
    requires MatchesAt(text[..n] + REPLACEMENT + rest, secret, i) && i < n < i + |secret|
    ensures CanShow(secret, i - n)
  {
    var out := text[..n] + REPLACEMENT + rest;
    forall k | 0 <= k < |secret| && 0 <= i - n + k < |REPLACEMENT|
      ensures secret[k] == REPLACEMENT[i - n + k]
    {
      assert out[i..i + |secret|][k] == out[i + k];
    }
    FrontIsSecret(text, n, rest, secret, i);
    NoneEarlier(text, n, secret, i);
  }

  lemma {:induction false} SliceOfSlice(text: Bytes, from: nat, to: nat, i: nat, j: nat)
    requires from <= to <= |text| && i <= j <= to - from
    ensures text[from..to][i..j] == text[from + i..from + j]
  {
    var part := text[from..to];
    assert forall k :: 0 <= k < |part| ==> part[k] == text[from + k];
    forall k | 0 <= k < j - i ensures part[i..j][k] == text[from + i..from + j][k] {
      assert part[i..j][k] == part[i + k];
    }
  }

  lemma {:induction false} NoneEarlier(text: Bytes, n: nat, secret: Bytes, i: nat)
    requires MatchesAt(text, secret, n) && forall j: nat :: j < n ==> !MatchesAt(text, secret, j)
    requires i < n < i + |secret| && text[i..n] == secret[..n - i]
    ensures StartsAfresh(secret, n - i)
  {
    var twice := secret[..n - i] + secret;
    assert text[i..n + |secret|] == twice by {
      assert text[i..n + |secret|] == text[i..n] + text[n..n + |secret|];
    }
    forall j: nat | j < n - i ensures !MatchesAt(twice, secret, j) {
      SliceOfSlice(text, i, n + |secret|, j, j + |secret|);
      assert !MatchesAt(text, secret, i + j);
    }
  }

  lemma {:induction false} FrontIsSecret(text: Bytes, n: nat, rest: Bytes, secret: Bytes, i: nat)
    requires n <= |text| && MatchesAt(text[..n] + REPLACEMENT + rest, secret, i) && i < n < i + |secret|
    ensures text[i..n] == secret[..n - i]
  {
    var out := text[..n] + REPLACEMENT + rest;
    forall k | 0 <= k < n - i ensures text[i + k] == secret[k] {
      assert out[i..i + |secret|][k] == out[i + k];
    }
  }

  lemma {:induction false} RawIsText(text: Bytes, n: nat, rest: Bytes, secret: Bytes, i: nat)
    requires n <= |text| && MatchesAt(text[..n] + REPLACEMENT + rest, secret, i) && i + |secret| <= n
    ensures MatchesAt(text, secret, i)
  {
    var out := text[..n] + REPLACEMENT + rest;
    assert out[..n] == text[..n];
    assert out[i..i + |secret|] == text[i..i + |secret|];
  }

  lemma {:induction false} RestIsBehind(front: Bytes, rest: Bytes, secret: Bytes, i: nat)
    requires MatchesAt(front + REPLACEMENT + rest, secret, i) && |front| + |REPLACEMENT| <= i
    ensures MatchesAt(rest, secret, i - |front| - |REPLACEMENT|)
  {
    var shift := |front| + |REPLACEMENT|;
    var out := front + REPLACEMENT + rest;
    assert out[shift..] == rest;
    assert out[i..i + |secret|] == rest[i - shift..i - shift + |secret|];
  }

  // An occurrence in redacted text overlaps replacement text in one of the ways that can show.
  lemma {:induction false} ShownOverlaps(text: Bytes, secret: Bytes, i: nat) returns (d: int)
    requires secret != [] && MatchesAt(ReplaceAll(text, secret), secret, i)
    ensures CanShow(secret, d)
    decreases |text|
  {
    hide MatchesAt, CanShow, ReplaceAll;
    var n := LeastMatch(text, secret);
    if n == |text| {
      CopiesUpTo(text, secret, n);
      NothingToReplace(text, secret);
      MatchIsInside(text, secret, i);
      assert false;
    } else {
      MatchIsInside(text, secret, n);
      FirstReplaced(text, secret, n);
      var rest := ReplaceAll(text[n + |secret|..], secret);
      if n + |REPLACEMENT| <= i {
        RestIsBehind(text[..n], rest, secret, i);
        d := ShownOverlaps(text[n + |secret|..], secret, i - n - |REPLACEMENT|);
      } else if n <= i {
        BeginsInside(text[..n], rest, secret, i);
        d := i - n;
      } else {
        if i + |secret| <= n {
          RawIsText(text, n, rest, secret, i);
          assert false;
        }
        BeginsBefore(text, n, rest, secret, i);
        d := i - n;
      }
    }
  }

  lemma {:induction false} MatchIsInside(text: Bytes, secret: Bytes, i: nat)
    requires MatchesAt(text, secret, i) && secret != []
    ensures i < |text| && i + |secret| <= |text|
  {
  }

  lemma {:induction false} NothingToReplace(text: Bytes, secret: Bytes)
    requires secret != []
    ensures text[..|text|] + ReplaceAll(text[|text|..], secret) == text
  {
    assert text[|text|..] == [];
  }

  // ---------------------------------------------------------------- where it can show, it does

  lemma {:induction false} ShowsAfter(secret: Bytes, d: int) returns (text: Bytes)
    requires secret != [] && CanShow(secret, d) && d >= 0
    ensures MatchesAt(ReplaceAll(text, secret), secret, d)
  {
    var over := d + |secret| > |REPLACEMENT|;
    var later := if over then secret[|REPLACEMENT| - d..] else [];
    text := secret + later;
    ReplacesAtOnce(secret, later);
    var out := REPLACEMENT + later;
    forall k | 0 <= k < |secret| ensures out[d + k] == secret[k] {
    }
    assert out[d..d + |secret|] == secret;
  }

  lemma {:induction false} ShowsBefore(secret: Bytes, n: nat) returns (text: Bytes)
    requires 0 < n < |secret| && CanShow(secret, 0 - n)
    ensures MatchesAt(ReplaceAll(text, secret), secret, 0)
  {
    var x := secret[..n];
    var later := if |secret| > n + |REPLACEMENT| then secret[n + |REPLACEMENT|..] else [];
    text := x + secret + later;
    forall i: nat | i < n ensures !MatchesAt(text, secret, i) {
      LaterDoesNotMatter(x + secret, later, secret, i);
    }
    ReplaceFirst(x, secret, later);
    hide ReplaceAll, StartsAfresh, MatchesAt;
    BeforeSpells(secret, n, later);
  }

  lemma {:induction false} LaterDoesNotMatter(text: Bytes, later: Bytes, secret: Bytes, i: nat)
    requires i + |secret| <= |text|
    ensures MatchesAt(text + later, secret, i) <==> MatchesAt(text, secret, i)
  {
    assert (text + later)[i..i + |secret|] == text[i..i + |secret|];
  }

  lemma {:induction false} BeforeSpells(secret: Bytes, n: nat, later: Bytes)
    requires 0 < n < |secret| && Agrees(secret, 0 - n)
    requires later == if |secret| > n + |REPLACEMENT| then secret[n + |REPLACEMENT|..] else []
    ensures MatchesAt(secret[..n] + REPLACEMENT + later, secret, 0)
  {
    var out := secret[..n] + REPLACEMENT + later;
    forall k | 0 <= k < |secret| ensures out[k] == secret[k] {
      if n <= k < n + |REPLACEMENT| {
        assert secret[k] == REPLACEMENT[0 - n + k];
      }
    }
    assert out[0..0 + |secret|] == secret;
  }

  ghost predicate AlwaysHides(secret: Bytes)
    requires secret != []
  {
    forall text, i: nat :: !MatchesAt(ReplaceAll(text, secret), secret, i)
  }

  // Main result: redaction removes every trace of the secret from every text exactly when the secret can
  // overlap replacement text in no way that shows.
  lemma {:induction false} HidesExactly(secret: Bytes)
    requires secret != []
    ensures AlwaysHides(secret) <==> NeverShown(secret)
  {
    hide MatchesAt, ReplaceAll, CanShow;
    if NeverShown(secret) {
      forall text, i: nat ensures !MatchesAt(ReplaceAll(text, secret), secret, i) {
        if MatchesAt(ReplaceAll(text, secret), secret, i) {
          var d := ShownOverlaps(text, secret, i);
        }
      }
    } else {
      var d :| CanShow(secret, d);
      ShowsSomewhere(secret, d);
    }
  }

  lemma {:induction false} ShowsSomewhere(secret: Bytes, d: int)
    requires CanShow(secret, d) && secret != []
    ensures !AlwaysHides(secret)
  {
    hide MatchesAt, ReplaceAll, Agrees, StartsAfresh;
    if d >= 0 {
      var text := ShowsAfter(secret, d);
      assert MatchesAt(ReplaceAll(text, secret), secret, d);
    } else {
      var text := ShowsBefore(secret, 0 - d);
      assert MatchesAt(ReplaceAll(text, secret), secret, 0);
    }
  }

  // ---------------------------------------------------------------- what this means for keys and for the stream

  // A secret with no bracket that is longer than the word between the brackets is never shown.
  lemma {:induction false} BracketFreeIsHidden(secret: Bytes)
    requires |secret| > |REPLACEMENT| - 2 && 0x5B !in secret && 0x5D !in secret
    ensures NeverShown(secret) && NoOverlap(secret)
  {
    NoBracketNoOverlap(secret);
    hide MatchesAt, NoOverlap;
    forall d ensures !CanShow(secret, d) {
      if -|secret| < d < |REPLACEMENT| {
        var k := if d <= 0 then 0 - d else |REPLACEMENT| - 1 - d;
        assert secret[k] in secret && REPLACEMENT[d + k] in {0x5B, 0x5D};
        assert secret[k] != REPLACEMENT[d + k];
      }
    }
  }

  // The condition is needed: a secret spelled inside the replacement text comes back out.
  lemma {:induction false} SpelledInsideShows()
    ensures !AlwaysHides(REPLACEMENT[1..4])
  {
    var secret := REPLACEMENT[1..4];
    assert Agrees(secret, 1);
    assert CanShow(secret, 1);
    HidesExactly(secret);
  }

  lemma {:induction false} PrefixHides(sent: Bytes, whole: Bytes, secret: Bytes, i: nat)
    requires sent <= whole && MatchesAt(sent, secret, i)
    ensures MatchesAt(whole, secret, i)
  {
    assert whole[i..i + |secret|] == sent[i..i + |secret|];
  }

  // However a body is split, and wherever the relay stops, nothing the client has received holds the secret.
  lemma {:induction false} StreamHides(secret: Bytes, chunks: seq<Bytes>, sent: Bytes, i: nat)
    requires secret != [] && NoOverlap(secret) && NeverShown(secret)
    requires sent <= Streamed(secret, [], chunks)
    ensures !MatchesAt(sent, secret, i)
  {
    StreamedIsWhole(secret, [], chunks);
    assert [] + Concat(chunks) == Concat(chunks);
    HidesExactly(secret);
    hide Streamed, NoOverlap, NeverShown, MatchesAt, ReplaceAll, Concat;
    if MatchesAt(sent, secret, i) {
      PrefixHides(sent, Streamed(secret, [], chunks), secret, i);
    }
  }
}
