// The relay's secret redactor (backend/internal/handler/custom_proxy.go): a streaming form that
// holds back a tail which may still grow into the secret, next to one whole-body replacement.
module Redactor {
  type Byte = x: int | 0 <= x < 256
  type Bytes = seq<Byte>

  // The bytes of "[REDACTED]".
  const REPLACEMENT: Bytes := [0x5B, 0x52, 0x45, 0x44, 0x41, 0x43, 0x54, 0x45, 0x44, 0x5D]

  // ---------------------------------------------------------------- the whole-body form

  // Go's bytes.ReplaceAll for a non-empty pattern: leftmost, non-overlapping, text once
  // inserted is never looked at again.
  function ReplaceAll(text: Bytes, secret: Bytes): Bytes
    requires secret != []
    decreases |text|
  {
    if |text| < |secret| then text
    else if text[..|secret|] == secret then REPLACEMENT + ReplaceAll(text[|secret|..], secret)
    else [text[0]] + ReplaceAll(text[1..], secret)
  }

  function Redact(body: Bytes, secret: Bytes): Bytes
  {
    if secret == [] then body else ReplaceAll(body, secret)
  }

  predicate MatchesAt(text: Bytes, secret: Bytes, i: nat)
  {
    i + |secret| <= |text| && text[i..i + |secret|] == secret
  }

  lemma {:induction false} MatchesFurther(text: Bytes, secret: Bytes, i: nat)
    requires text != []
    ensures MatchesAt(text, secret, i + 1) <==> MatchesAt(text[1..], secret, i)
  {
    if i + |secret| < |text| {
      assert text[1..][i..i + |secret|] == text[i + 1..i + 1 + |secret|];
    }
  }

  lemma {:induction false} CopiesOne(text: Bytes, secret: Bytes)
    requires secret != [] && text != [] && !MatchesAt(text, secret, 0)
    ensures ReplaceAll(text, secret) == [text[0]] + ReplaceAll(text[1..], secret)
  {
    if |text| < |secret| {
      assert text == [text[0]] + text[1..];
    } else {
      assert text[0..|secret|] == text[..|secret|];
    }
  }

  // Bytes before the first match are copied.
  lemma {:induction false} CopiesUpTo(text: Bytes, secret: Bytes, n: nat)
    requires secret != [] && n <= |text|
    requires forall i :: 0 <= i < n ==> !MatchesAt(text, secret, i)
    ensures ReplaceAll(text, secret) == text[..n] + ReplaceAll(text[n..], secret)
    decreases n
  {
    hide ReplaceAll, MatchesAt;
    if n == 0 {
      assert text[0..] == text;
    } else {
      var rest := text[1..];
      forall i | 0 <= i < n - 1 ensures !MatchesAt(rest, secret, i) {
        MatchesFurther(text, secret, i);
      }
      CopiesUpTo(rest, secret, n - 1);
      CopiesOne(text, secret);
      FirstApart(text, n, ReplaceAll(text[n..], secret));
    }
  }

  lemma {:induction false} FirstApart(text: Bytes, n: nat, end: Bytes)
    requires 0 < n <= |text|
    ensures [text[0]] + (text[1..][..n - 1] + end) == text[..n] + end
    ensures text[1..][n - 1..] == text[n..]
  {
  }

  // ---------------------------------------------------------------- the kept tail

  // The last `n` bytes of `data` are a proper prefix of the secret.
  predicate Tail(data: Bytes, secret: Bytes, n: nat)
  {
    n < |secret| && n <= |data| && data[|data| - n..] == secret[..n]
  }

  ghost predicate LongestTail(data: Bytes, secret: Bytes, n: nat)
  {
    Tail(data, secret, n) && forall m: nat :: Tail(data, secret, m) ==> m <= n
  }

  // The longest tail of length at most `limit`; the empty tail always qualifies.
  function TailLength(data: Bytes, secret: Bytes, limit: nat): (n: nat)
    requires limit < |secret|
    ensures Tail(data, secret, n) && n <= limit
    ensures forall m: nat :: m <= limit && Tail(data, secret, m) ==> m <= n
  {
    if limit == 0 || Tail(data, secret, limit) then limit else TailLength(data, secret, limit - 1)
  }

  function Keep(data: Bytes, secret: Bytes): (n: nat)
    requires secret != []
    ensures LongestTail(data, secret, n)
  {
    TailLength(data, secret, |secret| - 1)
  }

  // relaySecretPrefixSuffixLength: the counting-down search.
  method PrefixSuffixLength(data: Bytes, secret: Bytes) returns (n: nat)
    requires secret != []
    ensures LongestTail(data, secret, n)
  {
    var limit := |secret| - 1;
    if |data| < limit {
      limit := |data|;
    }
    var length := limit;
    while length > 0
      invariant 0 <= length <= limit
      invariant forall m: nat :: Tail(data, secret, m) ==> m <= length
    {
      if data[|data| - length..] == secret[..length] {
        return length;
      }
      length := length - 1;
    }
    assert data[|data|..] == secret[..0];
    return 0;
  }

  // ---------------------------------------------------------------- one chunk

  datatype Pushed = Pushed(out: Bytes, pending: Bytes)

  function PushResult(secret: Bytes, pending: Bytes, chunk: Bytes, final: bool): Pushed
  {
    var held := pending + chunk;
    if secret == [] then Pushed(held, [])
    else
      var replaced := ReplaceAll(held, secret);
      if final then Pushed(replaced, [])
      else
        var cut := |replaced| - Keep(replaced, secret);
        Pushed(replaced[..cut], replaced[cut..])
  }

  // The whole of a body arriving in `chunks`, then the closing call.
  function Streamed(secret: Bytes, pending: Bytes, chunks: seq<Bytes>): Bytes
    decreases |chunks|
  {
    if chunks == [] then PushResult(secret, pending, [], true).out
    else
      var step := PushResult(secret, pending, chunks[0], false);
      step.out + Streamed(secret, step.pending, chunks[1..])
  }

  function Concat(chunks: seq<Bytes>): Bytes
  {
    if chunks == [] then [] else chunks[0] + Concat(chunks[1..])
  }

  class RelayStreamRedactor {
    const secret: Bytes
    var pending: Bytes

    constructor (secret: Bytes)
      ensures this.secret == secret && pending == []
    {
      this.secret := secret;
      pending := [];
    }

    // With a non-empty secret and `final` false the call hands out the replaced text less its
    // longest tail that could begin the secret, and keeps exactly that tail.
    method Push(chunk: Bytes, final: bool) returns (result: Bytes)
      modifies this
      ensures Pushed(result, pending) == PushResult(secret, old(pending), chunk, final)
      ensures result + pending == Redact(old(pending) + chunk, secret)
      ensures final || secret == [] ==> pending == []
      ensures !final && secret != [] ==> LongestTail(result + pending, secret, |pending|)
    {
      pending := pending + chunk;
      if secret == [] {
        result := pending;
        pending := [];
        return;
      }
      pending := ReplaceAll(pending, secret);
      if final {
        result := pending;
        pending := [];
        return;
      }
      var keep := PrefixSuffixLength(pending, secret);
      assert keep == Keep(pending, secret) by {
        LongestIsUnique(pending, secret, keep, Keep(pending, secret));
      }
      var cut := |pending| - keep;
      result := pending[..cut];
      assert result + pending[cut..] == pending;
      pending := pending[cut..];
    }
  }

  lemma {:induction false} LongestIsUnique(data: Bytes, secret: Bytes, m: nat, n: nat)
    requires LongestTail(data, secret, m) && LongestTail(data, secret, n)
    ensures m == n
  {
  }

  // ---------------------------------------------------------------- when chunking is sound

  // A secret whose first `e` bytes end the way inserted replacement text ends, so a kept tail
  // could reach into text that was inserted rather than received.
  predicate ReachesInto(secret: Bytes, e: nat)
  {
    0 < e < |secret| &&
    var m := if e < |REPLACEMENT| then e else |REPLACEMENT|;
    secret[e - m..e] == REPLACEMENT[|REPLACEMENT| - m..]
  }

  ghost predicate NoOverlap(secret: Bytes)
  {
    forall e: nat :: !ReachesInto(secret, e)
  }

  lemma {:induction false} ReachEndsInBracket(secret: Bytes, e: nat)
    requires ReachesInto(secret, e)
    ensures secret[e - 1] == 0x5D
  {
    var m := if e < |REPLACEMENT| then e else |REPLACEMENT|;
    assert secret[e - m..e][m - 1] == REPLACEMENT[|REPLACEMENT| - m..][m - 1];
  }

  // A secret with no `]` byte qualifies: replacement text ends in one.
  lemma {:induction false} NoBracketNoOverlap(secret: Bytes)
    requires 0x5D !in secret
    ensures NoOverlap(secret)
  {
    forall e: nat ensures !ReachesInto(secret, e) {
      if ReachesInto(secret, e) {
        ReachEndsInBracket(secret, e);
      }
    }
  }

  predicate HoldsReplacement(text: Bytes, i: nat)
  {
    i + |REPLACEMENT| <= |text| && text[i..i + |REPLACEMENT|] == REPLACEMENT
  }

  // Replacement either changes nothing or leaves inserted text somewhere in the result.
  lemma {:induction false} ReplacedOrSame(text: Bytes, secret: Bytes)
    requires secret != []
    ensures ReplaceAll(text, secret) == text || exists i: nat :: HoldsReplacement(ReplaceAll(text, secret), i)
    decreases |text|
  {
    var replaced := ReplaceAll(text, secret);
    if |text| < |secret| {
    } else if text[..|secret|] == secret {
      assert replaced[0..|REPLACEMENT|] == REPLACEMENT;
      assert HoldsReplacement(replaced, 0);
    } else {
      var rest := ReplaceAll(text[1..], secret);
      ReplacedOrSame(text[1..], secret);
      if rest == text[1..] {
        assert replaced == text;
      } else {
        var i: nat :| HoldsReplacement(rest, i);
        assert replaced[i + 1..i + 1 + |REPLACEMENT|] == rest[i..i + |REPLACEMENT|];
        assert HoldsReplacement(replaced, i + 1);
      }
    }
  }

  // A tail of `front + data` no longer than `data` is a tail of `data`, and conversely.
  lemma {:induction false} TailBehind(front: Bytes, data: Bytes, secret: Bytes, n: nat)
    ensures n <= |data| ==> (Tail(front + data, secret, n) <==> Tail(data, secret, n))
  {
    if n <= |data| {
      assert (front + data)[|front + data| - n..] == data[|data| - n..];
    }
  }

  lemma {:induction false} LongestBehind(front: Bytes, data: Bytes, secret: Bytes, n: nat)
    requires LongestTail(front + data, secret, n) && n <= |data|
    ensures LongestTail(data, secret, n)
  {
    TailBehind(front, data, secret, n);
    forall m: nat | Tail(data, secret, m) ensures m <= n {
      TailBehind(front, data, secret, m);
    }
  }

  lemma {:induction false} TailOverReplacementReaches(data: Bytes, secret: Bytes, n: nat)
    requires Tail(REPLACEMENT + data, secret, n) && n > |data|
    ensures ReachesInto(secret, n - |data|)
  {
    var e := n - |data|;
    var all := REPLACEMENT + data;
    assert secret[..e] == secret[..n][..e] == all[|all| - n..][..e] == REPLACEMENT[|REPLACEMENT| - e..];
    assert secret[e - e..e] == secret[..e];
  }

  // A result that is as a whole the start of the secret holds no replacement text, unless the
  // secret itself does.
  lemma {:induction false} WholeTailReaches(replaced: Bytes, secret: Bytes, i: nat)
    requires Tail(replaced, secret, |replaced|) && HoldsReplacement(replaced, i)
    ensures ReachesInto(secret, i + |REPLACEMENT|)
  {
    var e := i + |REPLACEMENT|;
    assert replaced == replaced[|replaced| - |replaced|..] == secret[..|replaced|];
    assert secret[e - |REPLACEMENT|..e] == replaced[i..e];
  }

  // A result that is shorter than its input never is, as a whole, the start of the secret.
  lemma {:induction false} TailIsNotWholeResult(text: Bytes, secret: Bytes)
    requires secret != [] && NoOverlap(secret) && |text| >= |secret|
    ensures !Tail(ReplaceAll(text, secret), secret, |ReplaceAll(text, secret)|)
  {
    var replaced := ReplaceAll(text, secret);
    if Tail(replaced, secret, |replaced|) {
      ReplacedOrSame(text, secret);
      var i: nat :| HoldsReplacement(replaced, i);
      WholeTailReaches(replaced, secret, i);
    }
  }

  lemma {:induction false} MatchIsTail(text: Bytes, secret: Bytes, later: Bytes, i: nat)
    requires |text| < |secret| && i < |text| && MatchesAt(text + later, secret, i)
    ensures Tail(text, secret, |text| - i)
  {
    var m := |text| - i;
    var all := text + later;
    forall j | 0 <= j < m ensures text[i + j] == secret[j] {
      assert all[i..i + |secret|][j] == all[i + j];
    }
    assert text[|text| - m..] == secret[..m];
  }

  // Text too short to hold the secret may be cut before its longest tail.
  lemma {:induction false} ShortTextCuts(text: Bytes, secret: Bytes, n: nat, later: Bytes)
    requires secret != [] && |text| < |secret| && LongestTail(text, secret, n)
    ensures ReplaceAll(text + later, secret) == text[..|text| - n] + ReplaceAll(text[|text| - n..] + later, secret)
  {
    var all := text + later;
    forall i: nat | i < |text| - n ensures !MatchesAt(all, secret, i) {
      if MatchesAt(all, secret, i) {
        MatchIsTail(text, secret, later, i);
      }
    }
    CopiesUpTo(all, secret, |text| - n);
    assert all[..|text| - n] == text[..|text| - n];
    assert all[|text| - n..] == text[|text| - n..] + later;
  }

  // What is let go of when `data` arrives and `n` bytes are kept, then everything later.
  function Resumed(data: Bytes, secret: Bytes, n: nat, later: Bytes): Bytes
    requires secret != [] && n <= |data|
  {
    data[..|data| - n] + ReplaceAll(data[|data| - n..] + later, secret)
  }

  lemma {:induction false} ResumedBehind(front: Bytes, data: Bytes, secret: Bytes, n: nat, later: Bytes)
    requires secret != [] && n <= |data|
    ensures Resumed(front + data, secret, n, later) == front + Resumed(data, secret, n, later)
  {
    var all := front + data;
    assert all[..|all| - n] == front + data[..|data| - n];
    assert all[|all| - n..] == data[|data| - n..];
  }

  lemma {:induction false} SplitsAtMatch(text: Bytes, secret: Bytes, later: Bytes)
    requires secret != [] && |text| >= |secret|
    ensures text[..|secret|] == secret ==>
              ReplaceAll(text + later, secret) == REPLACEMENT + ReplaceAll(text[|secret|..] + later, secret)
    ensures text[..|secret|] != secret ==>
              ReplaceAll(text + later, secret) == [text[0]] + ReplaceAll(text[1..] + later, secret)
  {
    TakeDrop(text, later, |secret|);
    TakeDrop(text, later, 1);
    assert (text + later)[0] == text[0];
  }

  lemma {:induction false} TakeDrop(text: Bytes, later: Bytes, m: nat)
    requires m <= |text|
    ensures (text + later)[..m] == text[..m] && (text + later)[m..] == text[m..] + later
  {
  }

  // The heart of the matter: replacing what has arrived, letting go of all but the longest tail
  // and replacing again later is replacing everything at once.
  lemma {:induction false} CutCommutes(text: Bytes, secret: Bytes, n: nat, later: Bytes)
    requires secret != [] && NoOverlap(secret)
    requires LongestTail(ReplaceAll(text, secret), secret, n)
    ensures ReplaceAll(text + later, secret) == Resumed(ReplaceAll(text, secret), secret, n, later)
    decreases |text|
  {
    hide Resumed, NoOverlap, LongestTail, Tail;
    if |text| < |secret| {
      CutsWhenShort(text, secret, n, later);
    } else if text[..|secret|] == secret {
      var rest := ReplaceAll(text[|secret|..], secret);
      KeepsBehindReplacement(rest, secret, n);
      CutCommutes(text[|secret|..], secret, n, later);
      SplitsAtMatch(text, secret, later);
      ResumedBehind(REPLACEMENT, rest, secret, n, later);
    } else {
      var rest := ReplaceAll(text[1..], secret);
      KeepsBehindByte(text, secret, n);
      CutCommutes(text[1..], secret, n, later);
      SplitsAtMatch(text, secret, later);
      ResumedBehind([text[0]], rest, secret, n, later);
    }
  }

  lemma {:induction false} CutsWhenShort(text: Bytes, secret: Bytes, n: nat, later: Bytes)
    requires secret != [] && |text| < |secret| && LongestTail(text, secret, n)
    ensures n <= |text|
    ensures ReplaceAll(text + later, secret) == Resumed(text, secret, n, later)
  {
    ShortTextCuts(text, secret, n, later);
  }

  lemma {:induction false} KeepsBehindReplacement(rest: Bytes, secret: Bytes, n: nat)
    requires NoOverlap(secret) && LongestTail(REPLACEMENT + rest, secret, n)
    ensures n <= |rest| && LongestTail(rest, secret, n)
  {
    if n > |rest| {
      TailOverReplacementReaches(rest, secret, n);
    }
    LongestBehind(REPLACEMENT, rest, secret, n);
  }

  lemma {:induction false} KeepsBehindByte(text: Bytes, secret: Bytes, n: nat)
    requires secret != [] && NoOverlap(secret) && |text| >= |secret| && text[..|secret|] != secret
    requires LongestTail(ReplaceAll(text, secret), secret, n)
    ensures n <= |ReplaceAll(text[1..], secret)| && LongestTail(ReplaceAll(text[1..], secret), secret, n)
  {
    TailIsNotWholeResult(text, secret);
    LongestBehind([text[0]], ReplaceAll(text[1..], secret), secret, n);
  }

  lemma {:induction false} KeepFits(data: Bytes, secret: Bytes)
    requires secret != []
    ensures Keep(data, secret) <= |data|
  {
  }

  // One chunk: what is put out, and the kept tail before whatever comes later, redact to the same.
  lemma {:induction false} StepIsWhole(secret: Bytes, pending: Bytes, chunk: Bytes, later: Bytes)
    requires NoOverlap(secret)
    ensures var step := PushResult(secret, pending, chunk, false);
            step.out + Redact(step.pending + later, secret) == Redact((pending + chunk) + later, secret)
  {
    hide ReplaceAll, NoOverlap, LongestTail, Tail;
    var held := pending + chunk;
    if secret == [] {
      assert [] + later == later;
    } else {
      var replaced := ReplaceAll(held, secret);
      var n := Keep(replaced, secret);
      KeepFits(replaced, secret);
      CutCommutes(held, secret, n, later);
      hide Keep;
      assert PushResult(secret, pending, chunk, false)
        == Pushed(replaced[..|replaced| - n], replaced[|replaced| - n..]);
    }
  }

  lemma {:induction false} LastIsWhole(secret: Bytes, pending: Bytes)
    ensures PushResult(secret, pending, [], true).out == Redact(pending, secret)
  {
    assert pending + [] == pending;
  }

  lemma {:induction false} StreamedIsWhole(secret: Bytes, pending: Bytes, chunks: seq<Bytes>)
    requires NoOverlap(secret)
    ensures Streamed(secret, pending, chunks) == Redact(pending + Concat(chunks), secret)
    decreases |chunks|
  {
    hide PushResult, Redact, NoOverlap;
    if chunks == [] {
      LastIsWhole(secret, pending);
      assert pending + [] == pending;
    } else {
      var step := PushResult(secret, pending, chunks[0], false);
      StreamedIsWhole(secret, step.pending, chunks[1..]);
      StepIsWhole(secret, pending, chunks[0], Concat(chunks[1..]));
      assert pending + Concat(chunks) == (pending + chunks[0]) + Concat(chunks[1..]);
    }
  }

  // ---------------------------------------------------------------- and when it is not

  lemma {:induction false} LeastReach(secret: Bytes, bound: nat) returns (e: nat)
    requires ReachesInto(secret, bound)
    ensures ReachesInto(secret, e) && forall d: nat :: ReachesInto(secret, d) ==> e <= d
    decreases bound
  {
    if d: nat :| d < bound && ReachesInto(secret, d) {
      e := LeastReach(secret, d);
    } else {
      e := bound;
    }
  }

  lemma {:induction false} EarlierMatchReaches(secret: Bytes, e: nat, i: nat, later: Bytes)
    requires ReachesInto(secret, e) && |REPLACEMENT| < e && i < e - |REPLACEMENT|
    requires MatchesAt(secret[..e - |REPLACEMENT|] + secret + later, secret, i)
    ensures ReachesInto(secret, i + |REPLACEMENT|)
  {
    var x := secret[..e - |REPLACEMENT|];
    var all := x + secret + later;
    var shift := |x| - i;
    forall j | shift <= j < |secret| ensures secret[j] == secret[j - shift] {
      assert all[i..i + |secret|][j] == all[i + j] == secret[j - shift];
    }
    assert secret[i..i + |REPLACEMENT|] == secret[|x|..e];
  }

  // The secret right after its own first bytes is not found any earlier.
  lemma {:induction false} NoEarlierMatch(secret: Bytes, e: nat, i: nat, later: Bytes)
    requires ReachesInto(secret, e) && forall d: nat :: ReachesInto(secret, d) ==> e <= d
    requires |REPLACEMENT| < e && i < e - |REPLACEMENT|
    ensures !MatchesAt(secret[..e - |REPLACEMENT|] + secret + later, secret, i)
  {
    if MatchesAt(secret[..e - |REPLACEMENT|] + secret + later, secret, i) {
      EarlierMatchReaches(secret, e, i, later);
    }
  }

  lemma {:induction false} ReplacesAtOnce(secret: Bytes, later: Bytes)
    requires secret != [] && |later| < |secret|
    ensures ReplaceAll(secret + later, secret) == REPLACEMENT + later
  {
    var text := secret + later;
    assert text[..|secret|] == secret && text[|secret|..] == later;
  }

  lemma {:induction false} ReplaceFirst(before: Bytes, secret: Bytes, later: Bytes)
    requires secret != [] && |later| < |secret|
    requires forall i: nat :: i < |before| ==> !MatchesAt(before + secret + later, secret, i)
    ensures ReplaceAll(before + secret + later, secret) == before + REPLACEMENT + later
  {
    var all := before + secret + later;
    CopiesUpTo(all, secret, |before|);
    hide MatchesAt;
    assert all[..|before|] == before && all[|before|..] == secret + later;
    ReplacesAtOnce(secret, later);
    assert before + (REPLACEMENT + later) == before + REPLACEMENT + later;
  }

  // The first bytes of the secret that make replacement text complete a tail.
  function Lead(secret: Bytes, e: nat): Bytes
    requires e <= |secret|
  {
    if e <= |REPLACEMENT| then [] else secret[..e - |REPLACEMENT|]
  }

  lemma {:induction false} LeadIsTail(secret: Bytes, e: nat)
    requires ReachesInto(secret, e)
    ensures Tail(Lead(secret, e) + REPLACEMENT, secret, e)
  {
    var replaced := Lead(secret, e) + REPLACEMENT;
    if e <= |REPLACEMENT| {
      assert secret[e - e..e] == secret[..e];
      assert replaced == REPLACEMENT;
    } else {
      assert secret[..e] == Lead(secret, e) + secret[e - |REPLACEMENT|..e];
      assert replaced[|replaced| - e..] == replaced;
    }
  }

  lemma {:induction false} LeadIsCopied(secret: Bytes, e: nat, later: Bytes)
    requires ReachesInto(secret, e) && forall d: nat :: ReachesInto(secret, d) ==> e <= d
    requires |later| < |secret|
    ensures ReplaceAll(Lead(secret, e) + secret + later, secret) == Lead(secret, e) + REPLACEMENT + later
  {
    var x := Lead(secret, e);
    forall i: nat | i < |x| ensures !MatchesAt(x + secret + later, secret, i) {
      NoEarlierMatch(secret, e, i, later);
    }
    ReplaceFirst(x, secret, later);
  }

  // For a secret outside NoOverlap, two chunks whose streamed form differs from the whole-body
  // form: the secret after the offending first bytes, then the rest of a second secret.
  lemma {:induction false} Counterexample(secret: Bytes, e: nat) returns (first: Bytes, second: Bytes)
    requires ReachesInto(secret, e)
    ensures Streamed(secret, [], [first, second]) != Redact(first + second, secret)
  {
    var least := LeastReach(secret, e);
    assert 0 < least < |secret|;
    hide ReplaceAll, Streamed, NoOverlap, LongestTail, Tail, ReachesInto, Lead;
    var x := Lead(secret, least);
    first := x + secret;
    var replaced := x + REPLACEMENT;
    LeadAloneIsCopied(secret, least);
    var kept := Keep(replaced, secret);
    hide Keep;
    LeadIsTail(secret, least);
    KeepReaches(replaced, secret, least);
    second := secret[kept..];
    LeadIsCopied(secret, least, second);
    TwoChunks(secret, first, second);
    TailCompletes(secret, replaced, kept);
    Differs(secret, least, kept);
  }

  lemma {:induction false} LeadAloneIsCopied(secret: Bytes, e: nat)
    requires ReachesInto(secret, e) && forall d: nat :: ReachesInto(secret, d) ==> e <= d
    ensures ReplaceAll(Lead(secret, e) + secret, secret) == Lead(secret, e) + REPLACEMENT
  {
    LeadIsCopied(secret, e, []);
    hide ReplaceAll, Lead;
    var x := Lead(secret, e);
    assert x + secret + [] == x + secret && x + REPLACEMENT + [] == x + REPLACEMENT;
  }

  lemma {:induction false} KeepReaches(data: Bytes, secret: Bytes, n: nat)
    requires Tail(data, secret, n)
    ensures n <= Keep(data, secret) <= |data| && Keep(data, secret) < |secret|
  {
  }

  // What two chunks and the closing call put out.
  lemma {:induction false} TwoChunks(secret: Bytes, first: Bytes, second: Bytes)
    requires secret != []
    ensures
      var a := ReplaceAll(first, secret);
      var cut := |a| - Keep(a, secret);
      Streamed(secret, [], [first, second]) == a[..cut] + Streamed(secret, a[cut..], [second])
  {
    assert [] + first == first;
    assert [first, second][1..] == [second];
  }

  // A kept tail that the next chunk completes to the secret, and nothing more.
  lemma {:induction false} TailCompletes(secret: Bytes, replaced: Bytes, kept: nat)
    requires secret != [] && LongestTail(replaced, secret, kept)
    ensures Streamed(secret, replaced[|replaced| - kept..], [secret[kept..]]) == REPLACEMENT
  {
    var pending := replaced[|replaced| - kept..];
    assert pending + secret[kept..] == secret;
    assert ReplaceAll(secret, secret) == REPLACEMENT by {
      ReplaceFirst([], secret, []);
      assert [] + secret + [] == secret && [] + REPLACEMENT + [] == REPLACEMENT;
    }
    WholeReplacement(secret);
    var none: seq<Bytes> := [];
    assert [secret[kept..]][1..] == none;
  }

  // Whatever is kept of the replacement text is handed out again by the closing call, unless
  // that text completes the secret once more, which a tail of itself cannot.
  lemma {:induction false} WholeReplacement(secret: Bytes)
    requires secret != []
    ensures
      var cut := |REPLACEMENT| - Keep(REPLACEMENT, secret);
      REPLACEMENT[..cut] + ReplaceAll(REPLACEMENT[cut..] + [], secret) == REPLACEMENT
  {
    var cut := |REPLACEMENT| - Keep(REPLACEMENT, secret);
    assert REPLACEMENT[cut..] + [] == REPLACEMENT[cut..];
    assert REPLACEMENT[..cut] + REPLACEMENT[cut..] == REPLACEMENT;
  }

  lemma {:induction false} Differs(secret: Bytes, least: nat, kept: nat)
    requires ReachesInto(secret, least)
    requires least <= kept < |secret| && kept <= |Lead(secret, least)| + |REPLACEMENT|
    ensures var x := Lead(secret, least);
      (x + REPLACEMENT)[..|x + REPLACEMENT| - kept] + REPLACEMENT != x + REPLACEMENT + secret[kept..]
  {
    var x := Lead(secret, least);
    if |x| == 0 && kept < |REPLACEMENT| {
      var i := |REPLACEMENT| - kept;
      var streamed := (x + REPLACEMENT)[..i] + REPLACEMENT;
      assert streamed[i] == 0x5B;
      assert (x + REPLACEMENT + secret[kept..])[i] == REPLACEMENT[i] != 0x5B;
    } else {
      assert |(x + REPLACEMENT)[..|x| + |REPLACEMENT| - kept] + REPLACEMENT| == |x| + 2 * |REPLACEMENT| - kept;
      assert |x + REPLACEMENT + secret[kept..]| == |x| + |REPLACEMENT| + |secret| - kept;
    }
  }

  lemma {:induction false} ConcatPair(first: Bytes, second: Bytes)
    ensures Concat([first, second]) == first + second
  {
    var none: seq<Bytes> := [];
    assert [second][1..] == none && Concat(none) == [];
    assert Concat([second]) == second + [] == second;
    assert [first, second][1..] == [second];
  }

  ghost predicate EverySplitAgrees(secret: Bytes)
  {
    forall chunks: seq<Bytes> :: Streamed(secret, [], chunks) == Redact(Concat(chunks), secret)
  }

  // Every split of every body streams to the whole-body replacement exactly for these secrets.
  lemma {:induction false} ChunkingSoundExactly(secret: Bytes)
    ensures EverySplitAgrees(secret) <==> NoOverlap(secret)
  {
    if NoOverlap(secret) {
      forall chunks: seq<Bytes> ensures Streamed(secret, [], chunks) == Redact(Concat(chunks), secret) {
        StreamedIsWhole(secret, [], chunks);
        assert [] + Concat(chunks) == Concat(chunks);
      }
    } else {
      var e: nat :| ReachesInto(secret, e);
      var first, second := Counterexample(secret, e);
      ConcatPair(first, second);
      assert !EverySplitAgrees(secret);
    }
  }

  // ---------------------------------------------------------------- the bounded copy loop

  // One call of the source's Read; `failed` covers the end of the body.
  datatype Read = Read(data: Bytes, failed: bool)

  // What the source delivers before it first fails.
  function Body(arrivals: seq<Read>): Bytes
  {
    if arrivals == [] then []
    else if arrivals[0].failed then arrivals[0].data
    else arrivals[0].data + Body(arrivals[1..])
  }

  function First(body: Bytes, limit: int): Bytes
  {
    if limit <= 0 then [] else if limit < |body| then body[..limit] else body
  }

  // The chunks handed to the redactor: empty arrivals are skipped and the last one is cut to fit.
  function Accepted(arrivals: seq<Read>, limit: int): seq<Bytes>
  {
    if arrivals == [] || limit <= 0 then []
    else
      var chunk := First(arrivals[0].data, limit);
      (if chunk == [] then [] else [chunk]) +
      (if arrivals[0].failed then [] else Accepted(arrivals[1..], limit - |chunk|))
  }

  lemma {:induction false} FirstSplits(data: Bytes, more: Bytes, limit: int)
    ensures First(data + more, limit) == First(data, limit) + First(more, limit - |First(data, limit)|)
  {
    if 0 < limit < |data| {
      assert (data + more)[..limit] == data[..limit];
    } else if |data| <= limit < |data| + |more| {
      assert (data + more)[..limit] == data + more[..limit - |data|];
    }
  }

  lemma {:induction false} ConcatCons(chunk: Bytes, later: seq<Bytes>)
    ensures Concat((if chunk == [] then [] else [chunk]) + later) == chunk + Concat(later)
  {
    var none: seq<Bytes> := [];
    if chunk == [] {
      assert none + later == later;
      assert [] + Concat(later) == Concat(later);
    } else {
      assert ([chunk] + later)[1..] == later;
    }
  }

  lemma {:induction false} AcceptedIsFirst(arrivals: seq<Read>, limit: int)
    ensures Concat(Accepted(arrivals, limit)) == First(Body(arrivals), limit)
    decreases |arrivals|
  {
    hide First, Concat;
    if arrivals == [] || limit <= 0 {
      assert Concat([]) == [] && First(Body(arrivals), limit) == [] by {
        NothingAccepted(Body(arrivals), limit);
      }
    } else {
      var chunk := First(arrivals[0].data, limit);
      if arrivals[0].failed {
        ConcatCons(chunk, []);
        NothingAccepted([], limit);
        assert chunk + [] == chunk;
      } else {
        ConcatCons(chunk, Accepted(arrivals[1..], limit - |chunk|));
        AcceptedIsFirst(arrivals[1..], limit - |chunk|);
        FirstSplits(arrivals[0].data, Body(arrivals[1..]), limit);
      }
    }
  }

  lemma {:induction false} NothingAccepted(body: Bytes, limit: int)
    ensures Concat([]) == [] && (limit <= 0 || body == [] ==> First(body, limit) == [])
  {
  }

  // What remains to be handed over after the next read.
  function Rest(arrivals: seq<Read>, limit: int): seq<Bytes>
    requires arrivals != []
  {
    if arrivals[0].failed then [] else Accepted(arrivals[1..], limit - |First(arrivals[0].data, limit)|)
  }

  lemma {:induction false} AcceptedUnfolds(arrivals: seq<Read>, limit: int)
    requires arrivals != [] && limit > 0
    ensures arrivals[0].data == [] ==> Accepted(arrivals, limit) == Rest(arrivals, limit)
    ensures arrivals[0].data != [] ==>
              Accepted(arrivals, limit) == [First(arrivals[0].data, limit)] + Rest(arrivals, limit)
  {
    if arrivals[0].data == [] {
      assert [] + Rest(arrivals, limit) == Rest(arrivals, limit);
    }
  }

  // The bytes already sent and the ones still to come make up the whole output.
  predicate Underway(secret: Bytes, sent: Bytes, pending: Bytes, rest: seq<Bytes>, whole: Bytes)
  {
    sent + Streamed(secret, pending, rest) == whole
  }

  lemma {:induction false} UnderwayPush(secret: Bytes, sent: Bytes, pending: Bytes, data: Bytes, rest: seq<Bytes>,
      whole: Bytes)
    requires Underway(secret, sent, pending, [data] + rest, whole)
    ensures var step := PushResult(secret, pending, data, false);
      Underway(secret, sent + step.out, step.pending, rest, whole) && sent + step.out <= whole
  {
    hide PushResult;
    var step := PushResult(secret, pending, data, false);
    assert ([data] + rest)[0] == data && ([data] + rest)[1..] == rest;
    assert sent + (step.out + Streamed(secret, step.pending, rest))
        == (sent + step.out) + Streamed(secret, step.pending, rest);
  }

  class ResponseWriter {
    var written: Bytes

    // A failing write may have sent part of the chunk.
    method Write(chunk: Bytes) returns (ok: bool)
      modifies this
      ensures ok ==> written == old(written) + chunk
      ensures old(written) <= written <= old(written) + chunk
    {
      if * {
        written := written + chunk;
        ok := true;
      } else {
        var n :| 0 <= n <= |chunk|;
        written := written + chunk[..n];
        ok := false;
      }
    }
  }

  // copyCustomRelayStream. Unless a write fails, the client receives the redaction of the first
  // `maxBytes` bytes of the body; when one does, a prefix of that.
  method CopyCustomRelayStream(writer: ResponseWriter, arrivals: seq<Read>, apiKey: Bytes, maxBytes: int)
    returns (ghost delivered: bool)
    requires arrivals != [] && arrivals[|arrivals| - 1].failed
    modifies writer
    ensures old(writer.written) <= writer.written
    ensures writer.written <= old(writer.written) + Streamed(apiKey, [], Accepted(arrivals, maxBytes))
    ensures delivered ==> writer.written == old(writer.written) + Streamed(apiKey, [], Accepted(arrivals, maxBytes))
    ensures NoOverlap(apiKey) ==>
              writer.written <= old(writer.written) + Redact(First(Body(arrivals), maxBytes), apiKey)
    ensures NoOverlap(apiKey) && delivered ==>
              writer.written == old(writer.written) + Redact(First(Body(arrivals), maxBytes), apiKey)
  {
    hide PushResult, Redact, Streamed, Accepted, Rest, Underway, NoOverlap, Body, LongestTail, Concat, First;
    ghost var whole := old(writer.written) + Streamed(apiKey, [], Accepted(arrivals, maxBytes));
    CopyIsRedaction(arrivals, apiKey, maxBytes);
    var redactor := new RelayStreamRedactor(apiKey);
    var written := 0;
    var i := 0;
    ghost var rest := Accepted(arrivals, maxBytes);
    UnderwayStart(apiKey, writer.written, rest);
    assert arrivals[0..] == arrivals;
    while written < maxBytes
      invariant fresh(redactor) && redactor.secret == apiKey
      invariant 0 <= i < |arrivals|
      invariant rest == Accepted(arrivals[i..], maxBytes - written)
      invariant old(writer.written) <= writer.written
      invariant Underway(apiKey, writer.written, redactor.pending, rest, whole)
      decreases |arrivals| - i
    {
      var read := arrivals[i];
      var data := read.data;
      var remaining := maxBytes - written;
      FirstIs(data, remaining);
      AcceptedUnfolds(arrivals[i..], remaining);
      RestUnfolds(arrivals, i, remaining);
      rest := Rest(arrivals[i..], remaining);
      if |data| > 0 {
        if |data| > remaining {
          data := data[..remaining];
        }
        UnderwayPush(apiKey, writer.written, redactor.pending, data, rest, whole);
        var chunk := redactor.Push(data, false);
        assert chunk == [] ==> writer.written + chunk == writer.written;
        if |chunk| > 0 {
          var ok := writer.Write(chunk);
          if !ok {
            return false;
          }
        }
        written := written + |data|;
      }
      if read.failed {
        break;
      }
      i := i + 1;
    }
    NothingLeft(arrivals[i..], maxBytes - written);
    UnderwayEnd(apiKey, writer.written, redactor.pending, whole);
    var tail := redactor.Push([], true);
    delivered := true;
    if |tail| > 0 {
      var ok := writer.Write(tail);
      delivered := ok;
    }
  }

  lemma {:induction false} FirstIs(data: Bytes, limit: nat)
    ensures First(data, limit) == if |data| > limit then data[..limit] else data
  {
  }

  lemma {:induction false} NothingLeft(arrivals: seq<Read>, limit: int)
    ensures limit <= 0 ==> Accepted(arrivals, limit) == []
  {
  }

  lemma {:induction false} RestUnfolds(arrivals: seq<Read>, i: nat, limit: int)
    requires i < |arrivals|
    ensures arrivals[i].failed ==> Rest(arrivals[i..], limit) == []
    ensures !arrivals[i].failed ==>
              Rest(arrivals[i..], limit) == Accepted(arrivals[i + 1..], limit - |First(arrivals[i].data, limit)|)
  {
    hide Accepted, First;
    assert arrivals[i..][1..] == arrivals[i + 1..];
  }

  lemma {:induction false} UnderwayStart(secret: Bytes, sent: Bytes, rest: seq<Bytes>)
    ensures Underway(secret, sent, [], rest, sent + Streamed(secret, [], rest))
  {
  }

  lemma {:induction false} UnderwayEnd(secret: Bytes, sent: Bytes, pending: Bytes, whole: Bytes)
    requires Underway(secret, sent, pending, [], whole)
    ensures whole == sent + PushResult(secret, pending, [], true).out
  {
  }

  lemma {:induction false} CopyIsRedaction(arrivals: seq<Read>, apiKey: Bytes, maxBytes: int)
    ensures NoOverlap(apiKey) ==>
              Streamed(apiKey, [], Accepted(arrivals, maxBytes)) == Redact(First(Body(arrivals), maxBytes), apiKey)
  {
    if NoOverlap(apiKey) {
      AcceptedIsFirst(arrivals, maxBytes);
      StreamedIsWhole(apiKey, [], Accepted(arrivals, maxBytes));
      assert [] + First(Body(arrivals), maxBytes) == First(Body(arrivals), maxBytes);
    }
  }
}
