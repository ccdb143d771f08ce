/** Decompression under caps. zlib is an oracle: any sequence of answers that respects the output
    window and the input it was given. The cap on the output holds in every state, error states
    included, no run takes the output past the ratio's product, and the one byte of headroom in the
    window never costs a body that fits exactly. */
module Inflate {
  import opened Base

  datatype Encoding = Gzip | Deflate

  datatype Ret = ZOk | ZStreamEnd | ZBufError | ZError

  /** One call of inflate(): what it returned, consumed and produced; whether the output could be
      buffered; whether a reset for the next gzip member would succeed. */
  datatype Answer = Answer(ret: Ret, consumed: nat, produced: seq<Byte>, memory: bool, reset: bool)

  datatype Limits = Limits(maxOut: nat, maxRatio: nat)

  const CHUNK: nat := 16384

  /** n taken r times. */
  function Times(n: nat, r: nat): nat
  {
    if r == 0 then 0 else n + Times(n, r - 1)
  }

  lemma {:induction false} TimesIsProduct(n: nat, r: nat)
    ensures Times(n, r) == n * r
  {
    if r > 0 {
      TimesIsProduct(n, r - 1);
    }
  }

  /** Both caps, for a given amount of input. `ratio` says that there has been enough input for
      the ratio to mean something, `bounded` that its product also fits 64 bits. */
  datatype Caps = Caps(maxOut: nat, ratio: bool, bounded: bool, product: nat)
  {
    /** How many more output bytes both caps permit. */
    function Allowance(outTotal: nat): nat
    {
      var room := U64_MAX;
      var room := if maxOut > 0 then Min(room, if outTotal >= maxOut then 0 else maxOut - outTotal) else room;
      if bounded then Min(room, if outTotal >= product then 0 else product - outTotal) else room
    }

    /** The window offered to zlib: one byte past the allowance, to tell "exactly the cap" from
        "more than the cap". */
    function Window(outTotal: nat): (w: nat)
      ensures 1 <= w <= CHUNK
      ensures w <= Allowance(outTotal) + 1
    {
      var room := Allowance(outTotal);
      if room >= CHUNK then CHUNK else room + 1
    }

    /** A total output that some cap forbids. */
    predicate Over(total: nat)
    {
      (maxOut > 0 && total > maxOut) || (ratio && total > product)
    }

    /** What one call of zlib puts into the window; after an error nothing is looked at. */
    function Clip(outTotal: nat, a: Answer): (chunk: seq<Byte>)
      ensures |chunk| <= Window(outTotal)
    {
      if a.ret == ZError then []
      else if |a.produced| <= Window(outTotal) then a.produced
      else a.produced[..Window(outTotal)]
    }
  }

  function CapsOf(l: Limits, inTotal: nat): Caps
  {
    var product := Times(inTotal, l.maxRatio);
    Caps(l.maxOut, l.maxRatio > 0 && inTotal >= 32, l.maxRatio > 0 && inTotal >= 32 && product <= U64_MAX, product)
  }

  lemma ProductMonotone(a: nat, b: nat, r: nat)
    requires a <= b
    ensures a * r <= b * r
  {
  }

  /** The guard against overflow is a division; it says that the product fits. */
  lemma GuardSaysItFits(n: nat, r: nat)
    requires r > 0
    ensures n <= U64_MAX / r <==> Times(n, r) <= U64_MAX
  {
    var q := U64_MAX / r;
    TimesIsProduct(n, r);
    QuotientBounds(U64_MAX, r);
    if n <= q {
      ProductMonotone(n, q, r);
    } else {
      ProductMonotone(q + 1, n, r);
    }
  }

  lemma QuotientBounds(a: nat, r: nat)
    requires r > 0
    ensures (a / r) * r <= a < (a / r + 1) * r
  {
    var q := a / r;
    assert a == q * r + a % r;
    assert (q + 1) * r == q * r + r;
  }

  predicate RatioFires(l: Limits, inTotal: nat, outTotal: nat)
  {
    l.maxRatio > 0 && inTotal >= 32 && outTotal / inTotal > l.maxRatio
  }

  /** The check after the fact. */
  predicate LimitFires(l: Limits, inTotal: nat, outTotal: nat)
  {
    (l.maxOut > 0 && outTotal > l.maxOut) || RatioFires(l, inTotal, outTotal)
  }

  lemma QuotientExceeds(a: nat, b: nat, r: nat)
    requires b > 0
    ensures a / b > r ==> a > b * r
  {
    if a / b > r {
      QuotientBounds(a, b);
      ProductMonotone(r + 1, a / b, b);
      assert (r + 1) * b == b * r + b;
    }
  }

  lemma QuotientBelow(a: nat, b: nat, r: nat)
    requires b > 0
    ensures a / b <= r ==> a < b * r + b
  {
    if a / b <= r {
      QuotientBounds(a, b);
      ProductMonotone(a / b + 1, r + 1, b);
      assert (r + 1) * b == b * r + b;
    }
  }

  lemma FiresWhenOver(l: Limits, inTotal: nat, total: nat)
    ensures LimitFires(l, inTotal, total) ==> CapsOf(l, inTotal).Over(total)
    ensures CapsOf(l, inTotal).ratio && !LimitFires(l, inTotal, total) ==> total < CapsOf(l, inTotal).product + inTotal
  {
    TimesIsProduct(inTotal, l.maxRatio);
    if inTotal > 0 {
      QuotientExceeds(total, inTotal, l.maxRatio);
      QuotientBelow(total, inTotal, l.maxRatio);
    }
  }

  /** What one production becomes: the bytes buffered, and the code. */
  function Deliver(l: Limits, inTotal: nat, outTotal: nat, produced: seq<Byte>, memory: bool): (r: (seq<Byte>, Code))
  {
    var allow := CapsOf(l, inTotal).Allowance(outTotal);
    if |produced| > allow then
      if allow > 0 && !memory then ([], NoMem) else (produced[..allow], BodyLimit)
    else if produced != [] && !memory then ([], NoMem)
    else (produced, if LimitFires(l, inTotal, outTotal + |produced|) then BodyLimit else Ok)
  }

  /** A delivery never passes a cap, loses nothing when it succeeds, is refused for a limit only
      when the production exceeds one, and wastes at most the byte of headroom. */
  lemma DeliverKeepsCaps(l: Limits, inTotal: nat, outTotal: nat, produced: seq<Byte>, memory: bool)
    requires l.maxOut > 0 ==> outTotal <= l.maxOut
    requires |produced| <= CapsOf(l, inTotal).Window(outTotal)
    ensures var (out, rc) := Deliver(l, inTotal, outTotal, produced, memory);
            && out <= produced
            && (l.maxOut > 0 ==> outTotal + |out| <= l.maxOut)
            && (CapsOf(l, inTotal).bounded ==> outTotal + |out| <= CapsOf(l, inTotal).product || out == [])
            && (rc == Ok && CapsOf(l, inTotal).ratio ==> outTotal + |out| < CapsOf(l, inTotal).product + inTotal)
            && (rc == Ok ==> out == produced)
            && (rc == BodyLimit ==> CapsOf(l, inTotal).Over(outTotal + |produced|))
            && (rc == NoMem ==> !memory && produced != [])
            && (|produced| > |out| + 1 ==> rc == NoMem)
            && (rc == Ok || rc == BodyLimit || rc == NoMem)
  {
    FiresWhenOver(l, inTotal, outTotal + |produced|);
  }

  /** What zlib has to say, however much that is, is refused for a limit in the very call in which
      it passes one, unless a full chunk of it still fits; and when it stays within both caps,
      exactly at them included, it is delivered whole. */
  lemma HeadroomTellsExactly(l: Limits, inTotal: nat, outTotal: nat, a: Answer)
    requires a.ret != ZError && |a.produced| < U64_MAX
    ensures var c := CapsOf(l, inTotal);
            var r := Deliver(l, inTotal, outTotal, c.Clip(outTotal, a), true);
            && (!c.Over(outTotal + |a.produced|) ==>
                  r == (c.Clip(outTotal, a), Ok) && (|a.produced| <= CHUNK ==> r.0 == a.produced))
            && (c.Allowance(outTotal) < CHUNK ==>
                  (r.1 == Ok ==> |a.produced| <= c.Allowance(outTotal) && r.0 == a.produced))
  {
    var c := CapsOf(l, inTotal);
    var chunk := c.Clip(outTotal, a);
    FiresWhenOver(l, inTotal, outTotal + |chunk|);
    assert c.Over(outTotal + |chunk|) ==> c.Over(outTotal + |a.produced|);
  }

  /** What the allowance is: n more bytes are within it exactly when n is none at all, or a size the
      machine has and the total stays within each cap in force. */
  lemma AllowanceMeans(c: Caps, outTotal: nat, n: nat)
    ensures n <= c.Allowance(outTotal) <==>
            n == 0 || (n <= U64_MAX && !(c.maxOut > 0 && outTotal + n > c.maxOut)
                       && !(c.bounded && outTotal + n > c.product))
  {
  }

  /** What being over a cap is: past the fixed cap, or past the ratio once 32 bytes have come in. */
  lemma OverMeans(l: Limits, inTotal: nat, total: nat)
    ensures CapsOf(l, inTotal).Over(total) <==>
            (l.maxOut > 0 && total > l.maxOut)
            || (l.maxRatio > 0 && inTotal >= 32 && total > inTotal * l.maxRatio)
  {
    TimesIsProduct(inTotal, l.maxRatio);
  }

  /** What zlib says in one chunk is taken whole unless a cap is passed, and something is taken
      whenever zlib says something. */
  lemma ClipIsWhole(c: Caps, outTotal: nat, a: Answer)
    requires a.ret != ZError && (c.bounded ==> c.ratio)
    ensures |a.produced| <= CHUNK && !c.Over(outTotal + |a.produced|) ==> c.Clip(outTotal, a) == a.produced
    ensures c.Clip(outTotal, a) == [] <==> a.produced == []
  {
    AllowanceMeans(c, outTotal, |a.produced|);
  }

  /** All that zlib said in its first k answers, and all it took. */
  function Said(script: seq<Answer>, k: nat): seq<Byte>
  {
    if k == 0 then [] else Said(script, k - 1) + (if k <= |script| then script[k - 1].produced else [])
  }

  function Taken(script: seq<Answer>, k: nat): nat
  {
    if k == 0 then 0 else Taken(script, k - 1) + (if k <= |script| then script[k - 1].consumed else 0)
  }

  /** None of the first k answers is an error, or longer than the largest window. */
  predicate Chunked(script: seq<Answer>, k: nat)
  {
    forall i :: 0 <= i < k && i < |script| ==> script[i].ret != ZError && |script[i].produced| <= CHUNK
  }

  /** Within the caps, everything zlib says is put out, however many calls it takes. */
  lemma {:induction false} MadeIsSaid(j: Job, k: nat)
    requires Chunked(j.script, k) && (j.caps.bounded ==> j.caps.ratio)
    requires !j.caps.Over(j.outTotal + |Said(j.script, k)|)
    ensures j.Made(k) == Said(j.script, k)
  {
    if k > 0 {
      MadeIsSaid(j, k - 1);
      ClipIsWhole(j.caps, j.outTotal + |j.Made(k - 1)|, j.At(k - 1));
    }
  }

  lemma {:induction false} LeftIsRest(j: Job, k: nat)
    ensures j.Left(k) == if Taken(j.script, k) <= j.avail then j.avail - Taken(j.script, k) else 0
  {
    if k > 0 {
      LeftIsRest(j, k - 1);
    }
  }

  /** Why a loop over `avail` bytes ended with its k-th call, said of zlib's own answers. */
  predicate EndedWith(avail: nat, script: seq<Answer>, k: nat, gzip: bool, rc: Code)
    requires k > 0
  {
    && (rc == Ok ==> k <= |script| && script[k - 1].ret == ZStreamEnd && Taken(script, k) >= avail)
    && (rc == WouldBlock && k <= |script| ==>
          && script[k - 1].produced == [] && (script[k - 1].ret == ZOk || script[k - 1].ret == ZBufError)
          && (Taken(script, k) >= avail || script[k - 1].ret == ZBufError))
    && (rc == BodyDecode ==>
          && k <= |script|
          && (script[k - 1].ret == ZError
              || (script[k - 1].ret == ZStreamEnd && Taken(script, k) < avail && !(gzip && script[k - 1].reset))))
    && (rc == NoMem ==> k <= |script| && script[k - 1].produced != [] && !script[k - 1].memory)
  }

  lemma ExplainedByAnswers(j: Job, k: nat, gzip: bool, rc: Code)
    requires j.Explains(k, gzip, rc) && (j.caps.bounded ==> j.caps.ratio)
    ensures EndedWith(j.avail, j.script, k + 1, gzip, rc)
    ensures rc == WouldBlock ==> j.Output(k) == []
  {
    LeftIsRest(j, k + 1);
    if j.At(k).ret != ZError {
      ClipIsWhole(j.caps, j.outTotal + |j.Made(k)|, j.At(k));
    }
  }

  /** And why it did not end earlier: each of the first n calls left input or output to come. */
  predicate WentOn(avail: nat, script: seq<Answer>, n: nat, gzip: bool)
  {
    n == 0
    || (&& WentOn(avail, script, n - 1, gzip) && n <= |script| && script[n - 1].ret != ZError
        && (script[n - 1].ret == ZStreamEnd ==> gzip && script[n - 1].reset && Taken(script, n) < avail)
        && (script[n - 1].ret != ZStreamEnd ==>
              script[n - 1].produced != [] || (script[n - 1].ret == ZOk && Taken(script, n) < avail)))
  }

  lemma {:induction false} GoesByAnswers(j: Job, n: nat, gzip: bool)
    requires j.Goes(n, gzip) && (j.caps.bounded ==> j.caps.ratio)
    ensures WentOn(j.avail, j.script, n, gzip)
  {
    if n > 0 {
      GoesByAnswers(j, n - 1, gzip);
      LeftIsRest(j, n);
      ClipIsWhole(j.caps, j.outTotal + |j.Made(n - 1)|, j.At(n - 1));
    }
  }

  /** An answer of zlib, and of the memory behind it, that gives no cause for refusal. */
  predicate Willing(script: seq<Answer>)
  {
    forall i :: 0 <= i < |script| ==> script[i].ret != ZError && script[i].memory && script[i].reset
  }

  /** One run of the inflating loop: the totals it starts from, the input on offer, and zlib's
      answers. Beyond the script zlib makes no progress. */
  datatype Job = Job(caps: Caps, outTotal: nat, avail: nat, script: seq<Answer>)
  {
    function At(k: nat): Answer
    {
      if k < |script| then script[k] else Answer(ZBufError, 0, [], true, true)
    }

    /** Input left before the k-th call. */
    function Left(k: nat): (left: nat)
      ensures left <= avail
    {
      if k == 0 then avail else Left(k - 1) - Min(At(k - 1).consumed, Left(k - 1))
    }

    /** What the first k calls put out, each clipped to the window it was offered. */
    function Made(k: nat): seq<Byte>
      decreases k, 0
    {
      if k == 0 then [] else Made(k - 1) + Output(k - 1)
    }

    function Output(k: nat): seq<Byte>
      decreases k, 1
    {
      caps.Clip(outTotal + |Made(k)|, At(k))
    }

    /** No more can be had from this input: it is used up, or zlib says it is stuck. */
    predicate Stalled(k: nat)
    {
      Output(k) == [] && (Left(k + 1) == 0 || At(k).ret == ZBufError)
    }

    /** After the k-th call there is more to do. */
    predicate GoesOn(k: nat, gzip: bool)
    {
      && At(k).ret != ZError
      && if At(k).ret == ZStreamEnd then Left(k + 1) > 0 && gzip && At(k).reset else !Stalled(k)
    }

    /** The first n calls each left more to do. */
    predicate Goes(n: nat, gzip: bool)
    {
      n == 0 || (Goes(n - 1, gzip) && GoesOn(n - 1, gzip))
    }

    /** Why the k-th call was the last. */
    predicate Explains(k: nat, gzip: bool, rc: Code)
    {
      match rc
      case Ok => At(k).ret == ZStreamEnd && Left(k + 1) == 0
      case WouldBlock => At(k).ret != ZError && At(k).ret != ZStreamEnd && Stalled(k)
      case BodyDecode =>
        At(k).ret == ZError || (At(k).ret == ZStreamEnd && Left(k + 1) > 0 && !(gzip && At(k).reset))
      case BodyLimit => caps.Over(outTotal + |Made(k + 1)|)
      case NoMem => Output(k) != [] && !At(k).memory
      case _ => false
    }

    /** The same for the two header bytes of a deflate stream, with more input behind them or
        not. */
    predicate HeaderExplains(k: nat, gzip: bool, more: bool, rc: Code)
    {
      match rc
      case Ok =>
        if At(k).ret == ZStreamEnd then more ==> gzip && At(k).reset
        else At(k).ret != ZError && (Left(k + 1) == 0 || Output(k) == [])
      case BodyDecode =>
        At(k).ret == ZError || (At(k).ret == ZStreamEnd && more && !(gzip && At(k).reset))
      case BodyLimit => caps.Over(outTotal + |Made(k + 1)|)
      case NoMem => Output(k) != [] && !At(k).memory
      case _ => false
    }

    predicate HeaderGoesOn(k: nat)
    {
      At(k).ret != ZError && At(k).ret != ZStreamEnd && Left(k + 1) > 0 && Output(k) != []
    }

    predicate HeaderGoes(n: nat)
    {
      n == 0 || (HeaderGoes(n - 1) && HeaderGoesOn(n - 1))
    }
  }

  const SPAN: nat := U64_MAX + 1

  /** Where a run starts: how far the held-back deflate header has got, and the totals. */
  datatype Start = Start(limits: Limits, inTotal: nat, outTotal: nat, decided: bool, hdrLen: nat)
  {
    /** How many of n input bytes go to the header. */
    function Held(n: nat): nat
    {
      if decided || hdrLen >= 2 then 0 else Min(2 - hdrLen, n)
    }

    /** The two loops a run of n bytes makes: on the header, and on the input behind it. */
    function HeaderJob(n: nat, header: seq<Answer>): Job
    {
      Job(CapsOf(limits, Cast(inTotal + Held(n), SPAN)), outTotal, 2, header)
    }

    function MainJob(n: nat, header: seq<Answer>, h: nat, script: seq<Answer>): Job
    {
      Job(CapsOf(limits, Cast(inTotal + n, SPAN)), outTotal + |HeaderJob(n, header).Made(h)|, n - Held(n), script)
    }

    /** What h calls on the header and k behind it put out. */
    function Made(n: nat, header: seq<Answer>, h: nat, script: seq<Answer>, k: nat): seq<Byte>
    {
      HeaderJob(n, header).Made(h) + MainJob(n, header, h, script).Made(k)
    }

    /** Whatever zlib said in those calls stays within both caps, and no answer is an error. */
    predicate Within(n: nat, header: seq<Answer>, h: nat, script: seq<Answer>, k: nat)
    {
      && Chunked(header, h) && Chunked(script, k)
      && (h > 0 ==> !HeaderJob(n, header).caps.Over(outTotal + |Said(header, h)|))
      && (k > 0 ==> !CapsOf(limits, Cast(inTotal + n, SPAN)).Over(outTotal + |Said(header, h)| + |Said(script, k)|))
    }

    /** Input that was left when the compressed stream ended: behind the last call, behind the
        header, or all of it. */
    function Past(n: nat, header: seq<Answer>, h: nat, script: seq<Answer>, k: nat): nat
    {
      if k > 0 then MainJob(n, header, h, script).Left(k) else if h > 0 then n - Held(n) else n
    }

    /** Each of those calls but the last left more to do, and the last says why the run ended as
        it did. */
    predicate Explains(n: nat, header: seq<Answer>, h: nat, script: seq<Answer>, k: nat, gzip: bool, rc: Code)
    {
      if k > 0 then
        MainJob(n, header, h, script).Goes(k - 1, gzip) && MainJob(n, header, h, script).Explains(k - 1, gzip, rc)
      else if h > 0 then
        HeaderJob(n, header).HeaderGoes(h - 1) && HeaderJob(n, header).HeaderExplains(h - 1, gzip, n > Held(n), rc)
      else
        rc == Ok || rc == WouldBlock || rc == BodyDecode
    }
  }

  /** A run of n bytes through zlib's own answers: what it made, if those stay within the caps, and
      when it ended, and why. */
  lemma RunByAnswers(st: Start, n: nat, header: seq<Answer>, h: nat, script: seq<Answer>, k: nat,
                     gzip: bool, rc: Code)
    requires st.Explains(n, header, h, script, k, gzip, rc)
    ensures st.Within(n, header, h, script, k) ==>
              st.Made(n, header, h, script, k) == Said(header, h) + Said(script, k)
    ensures k > 0 ==> EndedWith(n - st.Held(n), script, k, gzip, rc)
    ensures k > 0 ==> WentOn(n - st.Held(n), script, k - 1, gzip)
  {
    if k > 0 {
      ExplainedByAnswers(st.MainJob(n, header, h, script), k - 1, gzip, rc);
      GoesByAnswers(st.MainJob(n, header, h, script), k - 1, gzip);
    }
    if st.Within(n, header, h, script, k) {
      MadeWithin(st, n, header, h, script, k);
    }
  }

  lemma MadeWithin(st: Start, n: nat, header: seq<Answer>, h: nat, script: seq<Answer>, k: nat)
    requires st.Within(n, header, h, script, k)
    ensures st.Made(n, header, h, script, k) == Said(header, h) + Said(script, k)
  {
    if h > 0 {
      MadeIsSaid(st.HeaderJob(n, header), h);
    }
    if k > 0 {
      MadeIsSaid(st.MainJob(n, header, h, script), k);
    }
  }

  /** No other code, and a lack of memory only when zlib's answers say so. */
  lemma RunBlames(st: Start, n: nat, header: seq<Answer>, h: nat, script: seq<Answer>, k: nat, gzip: bool, rc: Code)
    requires st.Explains(n, header, h, script, k, gzip, rc)
    ensures rc == Ok || rc == WouldBlock || rc == BodyDecode || rc == BodyLimit || rc == NoMem
    ensures rc == NoMem ==> !(Willing(header) && Willing(script))
  {
  }

  class Inflater {
    const enc: Encoding
    const limits: Limits
    var finished: bool
    var wrapDecided: bool
    var hdrLen: nat
    var inTotal: nat
    var outTotal: nat
    /** Everything zlib has produced, and everything that reached the caller's buffer. */
    ghost var made: seq<Byte>
    ghost var passed: seq<Byte>
    /** Input bytes refused for coming after the end of the compressed stream. */
    ghost var past: nat

    /** The hard caps, in every state. Only a limit or an allocation failure drops output. */
    ghost predicate Valid()
      reads this
    {
      && hdrLen <= 2 && inTotal < SPAN && (enc == Gzip ==> wrapDecided)
      && outTotal == |passed|
      && (limits.maxOut > 0 ==> outTotal <= limits.maxOut)
      && passed <= made
    }

    constructor (enc: Encoding, limits: Limits)
      ensures Valid() && this.enc == enc && this.limits == limits
      ensures made == [] && passed == [] && inTotal == 0 && hdrLen == 0 && past == 0
      ensures !finished && (wrapDecided <==> enc == Gzip)
    {
      this.enc, this.limits := enc, limits;
      finished, wrapDecided, hdrLen := false, enc == Gzip, 0;
      inTotal, outTotal := 0, 0;
      made, passed, past := [], [], 0;
    }

    function CapsNow(): Caps
      reads this
    {
      CapsOf(limits, inTotal)
    }

    /** The caps as the code works them out, with a division to guard the product. */
    method Measure() returns (c: Caps)
      ensures c == CapsNow()
    {
      TimesIsProduct(inTotal, limits.maxRatio);
      if limits.maxRatio > 0 {
        GuardSaysItFits(inTotal, limits.maxRatio);
      }
      var meaningful := limits.maxRatio > 0 && inTotal >= 32;
      c := Caps(limits.maxOut, meaningful, meaningful && inTotal <= U64_MAX / limits.maxRatio,
                inTotal * limits.maxRatio);
    }

    /** One turn of the loop: offer the window, judge the return, deliver what came out. */
    method Turn(a: Answer) returns (rc: Code, out: seq<Byte>, produced: nat)
      requires Valid() && passed == made
      modifies this`outTotal, this`made, this`passed
      ensures CapsNow().bounded ==> outTotal <= CapsNow().product || outTotal == old(outTotal)
      ensures Valid()
      ensures made == old(made) + CapsNow().Clip(old(outTotal), a)
      ensures produced == |CapsNow().Clip(old(outTotal), a)|
      ensures passed == old(passed) + out
      ensures rc == Ok || rc == BodyDecode || rc == BodyLimit || rc == NoMem
      ensures rc == Ok ==> passed == made
      ensures rc == BodyDecode <==> a.ret == ZError
      ensures rc == BodyLimit ==> CapsNow().Over(|made|)
      ensures rc == NoMem ==> !a.memory && produced > 0
      ensures |made| > |passed| + 1 ==> rc == NoMem
    {
      var c := Measure();
      var window := c.Window(outTotal);
      var chunk := if |a.produced| <= window then a.produced else a.produced[..window];
      if a.ret == ZError {
        return BodyDecode, [], 0;
      }
      produced := |chunk|;
      if produced == 0 {
        return Ok, [], 0;
      }
      out, rc := Hand(chunk, a.memory);
      made, passed, outTotal := made + chunk, passed + out, outTotal + |out|;
    }

    /** What of a production may go on, and what that means. */
    method Hand(chunk: seq<Byte>, memory: bool) returns (out: seq<Byte>, rc: Code)
      requires Valid() && chunk != [] && |chunk| <= CapsNow().Window(outTotal)
      ensures out <= chunk && (limits.maxOut > 0 ==> outTotal + |out| <= limits.maxOut)
      ensures CapsNow().bounded ==> outTotal + |out| <= CapsNow().product || out == []
      ensures rc == Ok || rc == BodyLimit || rc == NoMem
      ensures rc == Ok ==> out == chunk
      ensures rc == BodyLimit ==> CapsNow().Over(outTotal + |chunk|)
      ensures rc == NoMem ==> !memory
      ensures |chunk| > |out| + 1 ==> rc == NoMem
    {
      DeliverKeepsCaps(limits, inTotal, outTotal, chunk, memory);
      var d := Deliver(limits, inTotal, outTotal, chunk, memory);
      out, rc := d.0, d.1;
    }

    /** After a stream ended with input left: the next gzip member, or malformed data. */
    method NextMember(reset: bool) returns (rc: Code)
      requires Valid()
      modifies this`finished
      ensures Valid()
      ensures rc == if enc == Gzip && reset then Ok else BodyDecode
      ensures finished == (old(finished) && rc != Ok)
    {
      if enc == Gzip && reset {
        finished := false;
        return Ok;
      }
      return BodyDecode;
    }

    ghost function JobNow(avail: nat, script: seq<Answer>): Job
      reads this
    {
      Job(CapsNow(), outTotal, avail, script)
    }

    /** The k-th call of a job, with what it makes and what it leaves of the input. */
    method Call(ghost j: Job, ghost base: seq<Byte>, k: nat, avail: nat, script: seq<Answer>)
      returns (rc: Code, a: Answer, piece: seq<Byte>, produced: nat, left: nat)
      requires Valid() && passed == made == base + j.Made(k)
      requires j == Job(CapsNow(), |base|, j.avail, script) && avail == j.Left(k)
      modifies this`outTotal, this`made, this`passed
      ensures j.caps.bounded ==> outTotal <= j.caps.product || outTotal == old(outTotal)
      ensures Valid() && made == base + j.Made(k + 1) && passed == old(passed) + piece
      ensures a == j.At(k) && produced == |j.Output(k)| && left == j.Left(k + 1)
      ensures rc == Ok || rc == BodyDecode || rc == BodyLimit || rc == NoMem
      ensures rc == Ok ==> passed == made
      ensures rc == BodyDecode <==> a.ret == ZError
      ensures rc == BodyLimit ==> j.caps.Over(|made|)
      ensures rc == NoMem ==> !a.memory && produced > 0
    {
      a := if k < |script| then script[k] else Answer(ZBufError, 0, [], true, true);
      assert outTotal == j.outTotal + |j.Made(k)| && a == j.At(k);
      assert j.Output(k) == CapsNow().Clip(outTotal, a);
      rc, piece, produced := Turn(a);
      Regroup(base, j.Made(k), j.Output(k));
      left := avail - Min(a.consumed, avail);
    }

    /** One turn of the main loop; `stop` says it was the last, and why. */
    method Round(ghost j: Job, ghost base: seq<Byte>, k: nat, avail: nat, script: seq<Answer>)
      returns (rc: Code, piece: seq<Byte>, left: nat, stop: bool)
      requires Valid() && !finished && passed == made == base + j.Made(k)
      requires j == Job(CapsNow(), |base|, j.avail, script) && avail == j.Left(k)
      modifies this`outTotal, this`made, this`passed, this`finished, this`past
      ensures j.caps.bounded ==> outTotal <= j.caps.product || outTotal == old(outTotal)
      ensures rc == BodyLimit ==> j.caps.Over(|made|)
      ensures Valid() && made == base + j.Made(k + 1) && passed == old(passed) + piece
      ensures left == j.Left(k + 1)
      ensures rc == Ok || rc == WouldBlock ==> passed == made && (finished <==> stop && rc == Ok)
      ensures stop ==> j.Explains(k, enc == Gzip, rc)
      ensures !stop ==> rc == Ok && k < |script| && j.GoesOn(k, enc == Gzip)
      ensures past == if rc == BodyDecode && j.At(k).ret != ZError then left else old(past)
    {
      var a, produced;
      rc, a, piece, produced, left := Call(j, base, k, avail, script);
      stop := true;
      if rc == Ok && a.ret == ZStreamEnd {
        rc, stop := EndMember(left, a.reset);
      } else if rc == Ok {
        stop := (left == 0 && produced == 0) || (produced == 0 && a.ret == ZBufError);
        rc := if stop then WouldBlock else Ok;
      }
    }

    /** A compressed stream has ended, with so much input left: that is the end, or the next gzip
        member, or data that has no place here. */
    method EndMember(left: nat, reset: bool) returns (rc: Code, stop: bool)
      requires Valid()
      modifies this`finished, this`past
      ensures Valid()
      ensures rc == if left == 0 || (enc == Gzip && reset) then Ok else BodyDecode
      ensures stop == (left == 0 || rc != Ok) && finished == stop
      ensures past == if rc == Ok then old(past) else left
    {
      finished := true;
      if left == 0 {
        return Ok, true;
      }
      rc := NextMember(reset);
      past := if rc == Ok then past else left;
      stop := rc != Ok;
    }

    /** The loop over one run of input. It ends for every finite behaviour of zlib, after `used`
        calls, all of which but the last left more to do; what they put out is what was made. */
    method Pump(ghost j: Job, avail0: nat, script: seq<Answer>) returns (rc: Code, out: seq<Byte>, ghost used: nat)
      requires Valid() && !finished && passed == made && j == JobNow(avail0, script)
      modifies this`outTotal, this`made, this`passed, this`finished, this`past
      ensures j.caps.bounded ==> outTotal <= j.caps.product || outTotal == old(outTotal)
      ensures rc == BodyLimit ==> j.caps.Over(|made|)
      ensures Valid() && passed == old(passed) + out
      ensures used > 0 && made == old(made) + j.Made(used)
      ensures rc == Ok || rc == WouldBlock ==> passed == made && (finished <==> rc == Ok)
      ensures j.Explains(used - 1, enc == Gzip, rc)
      ensures j.Goes(used - 1, enc == Gzip)
      ensures rc != BodyDecode ==> past == old(past)
      ensures rc == BodyDecode && Willing(script) ==> past == j.Left(used)
    {
      ghost var base := made;
      var avail: nat, k: nat := avail0, 0;
      out, used := [], 0;
      while true
        invariant Valid() && !finished && passed == made == base + j.Made(k) && passed == base + out
        invariant k <= |script| && used == k && avail == j.Left(k) && j.Goes(k, enc == Gzip)
        invariant j.caps.bounded ==> outTotal <= j.caps.product || outTotal == |base|
        invariant past == old(past)
        decreases |script| - k
      {
        var piece, stop;
        rc, piece, avail, stop := Round(j, base, k, avail, script);
        Regroup(base, out, piece);
        out, used := out + piece, used + 1;
        if stop {
          return;
        }
        k := k + 1;
      }
    }

    /** One turn of the loop over the two held-back header bytes, with so much input behind them. */
    method HeaderRound(ghost j: Job, ghost base: seq<Byte>, k: nat, avail: nat, script: seq<Answer>, behind: nat)
      returns (rc: Code, piece: seq<Byte>, left: nat, stop: bool, ended: bool)
      requires Valid() && !finished && passed == made == base + j.Made(k)
      requires j == Job(CapsNow(), |base|, j.avail, script) && avail == j.Left(k)
      modifies this`outTotal, this`made, this`passed, this`finished, this`past
      ensures rc == BodyLimit ==> j.caps.Over(|made|)
      ensures Valid() && made == base + j.Made(k + 1) && passed == old(passed) + piece
      ensures left == j.Left(k + 1)
      ensures stop ==> j.HeaderExplains(k, enc == Gzip, behind > 0, rc)
      ensures !stop ==> rc == Ok && k < |script| && j.HeaderGoesOn(k)
      ensures ended ==> stop && j.At(k).ret == ZStreamEnd
      ensures rc == Ok ==> passed == made && (finished <==> ended && behind == 0)
      ensures past == if rc == BodyDecode && j.At(k).ret != ZError then behind else old(past)
    {
      var a, produced;
      rc, a, piece, produced, left := Call(j, base, k, avail, script);
      ended := rc == Ok && a.ret == ZStreamEnd;
      stop := rc != Ok || ended || left == 0 || produced == 0;
      if ended {
        var over;
        rc, over := EndMember(behind, a.reset);
      }
    }

    /** The two held-back header bytes of a deflate stream go first. */
    method PumpHeader(ghost j: Job, behind: nat, script: seq<Answer>)
      returns (rc: Code, out: seq<Byte>, ended: bool, ghost used: nat)
      requires Valid() && !finished && passed == made && j == JobNow(2, script)
      modifies this`outTotal, this`made, this`passed, this`finished, this`past
      ensures rc == BodyLimit ==> j.caps.Over(|made|)
      ensures Valid() && passed == old(passed) + out
      ensures used > 0 && made == old(made) + j.Made(used)
      ensures rc == Ok ==> passed == made && (finished <==> ended && behind == 0)
      ensures j.HeaderExplains(used - 1, enc == Gzip, behind > 0, rc)
      ensures j.HeaderGoes(used - 1)
      ensures ended ==> j.At(used - 1).ret == ZStreamEnd
      ensures rc != BodyDecode ==> past == old(past)
      ensures rc == BodyDecode && Willing(script) ==> past == behind
    {
      ghost var base := made;
      var avail: nat, k: nat := 2, 0;
      out, used := [], 0;
      while true
        invariant Valid() && !finished && passed == made == base + j.Made(k) && passed == base + out
        invariant k <= |script| && used == k && avail == j.Left(k) && j.HeaderGoes(k)
        invariant past == old(past)
        decreases |script| - k
      {
        var piece, stop;
        rc, piece, avail, stop, ended := HeaderRound(j, base, k, avail, script, behind);
        Regroup(base, out, piece);
        out, used := out + piece, used + 1;
        if stop {
          return;
        }
        k := k + 1;
      }
    }

    ghost function StartNow(): Start
      reads this
    {
      Start(limits, inTotal, outTotal, wrapDecided, hdrLen)
    }

    /** Take what the two-byte deflate header still lacks from the front of the input. */
    method HoldBack(ghost start: Start, n: nat) returns (left: nat)
      requires Valid() && start == StartNow() && !wrapDecided
      modifies this`hdrLen, this`inTotal
      ensures Valid() && left == n - start.Held(n)
      ensures hdrLen == start.hdrLen + start.Held(n) && (hdrLen < 2 ==> left == 0)
      ensures inTotal == Cast(start.inTotal + start.Held(n), SPAN)
    {
      var held := Min(2 - hdrLen, n);
      hdrLen, left := hdrLen + held, n - held;
      inTotal := Cast(inTotal + held, SPAN);
    }

    /** Hold back the header until its two bytes are there; then decide and feed them. */
    method Begin(ghost start: Start, input: seq<Byte>, initOk: bool, header: seq<Answer>, ghost script: seq<Answer>)
      returns (rc: Code, out: seq<Byte>, left: nat, over: bool, ghost h: nat)
      requires Valid() && !finished && passed == made && start == StartNow()
      modifies this
      ensures rc == BodyLimit ==> CapsNow().Over(|made|)
      ensures Valid() && passed == old(passed) + out
      ensures start.decided ==> h == 0 && !over && outTotal == start.outTotal
      ensures left == |input| - start.Held(|input|)
      ensures inTotal == Cast(start.inTotal + start.Held(|input|), SPAN)
      ensures made == old(made) + start.HeaderJob(|input|, header).Made(h)
      ensures rc == Ok || rc == WouldBlock ==> passed == made && (finished <==> over && rc == Ok)
      ensures !over ==> rc == Ok && wrapDecided
      ensures rc == WouldBlock ==> !wrapDecided && hdrLen == start.hdrLen + |input| < 2
      ensures rc == Ok && over ==> left == 0 && 0 < h <= |header| && header[h - 1].ret == ZStreamEnd
      ensures start.Explains(|input|, header, h, script, 0, enc == Gzip, rc)
      ensures h == 0 && rc == BodyDecode ==> !initOk
      ensures rc != BodyDecode ==> past == old(past)
      ensures rc == BodyDecode && initOk && Willing(header) ==>
        past == start.Past(|input|, header, h, script, 0) > 0
    {
      out, left, over, h := [], |input|, false, 0;
      assert start.HeaderJob(|input|, header).Made(0) == [];
      if wrapDecided {
        return Ok, [], left, false, 0;
      }
      left := HoldBack(start, |input|);
      if hdrLen < 2 {
        return WouldBlock, [], left, true, 0;
      }
      rc, out, over, h := Decide(start.HeaderJob(|input|, header), left, initOk, header);
    }

    /** Both header bytes are there: they settle the wrapping, and are fed unless zlib refuses it. */
    method Decide(ghost j: Job, behind: nat, initOk: bool, header: seq<Answer>)
      returns (rc: Code, out: seq<Byte>, over: bool, ghost h: nat)
      requires Valid() && !finished && passed == made && j == JobNow(2, header) && !wrapDecided
      modifies this`wrapDecided, this`outTotal, this`made, this`passed, this`finished, this`past
      ensures rc == BodyLimit ==> j.caps.Over(|made|)
      ensures Valid() && passed == old(passed) + out && made == old(made) + j.Made(h)
      ensures if initOk then h > 0 && wrapDecided else h == 0 && rc == BodyDecode && !wrapDecided
      ensures rc == Ok ==> passed == made && (finished <==> over && behind == 0)
      ensures h > 0 ==> j.HeaderExplains(h - 1, enc == Gzip, behind > 0, rc) && j.HeaderGoes(h - 1)
      ensures rc == Ok && over ==> 0 < h <= |header| && header[h - 1].ret == ZStreamEnd
      ensures rc != Ok ==> over
      ensures rc != BodyDecode ==> past == old(past)
      ensures rc == BodyDecode && initOk && Willing(header) ==> past == behind > 0
    {
      if !initOk {
        return BodyDecode, [], true, 0;
      }
      wrapDecided := true;
      rc, out, over, h := PumpHeader(j, behind, header);
      over := over || rc != Ok;
    }

    /** The rest of the input, once the header is out of the way. */
    method Rest(ghost start: Start, input: seq<Byte>, ghost header: seq<Answer>, ghost h: nat,
                script: seq<Answer>, left: nat)
      returns (rc: Code, out: seq<Byte>, ghost k: nat)
      requires Valid() && !finished && passed == made && start.limits == limits
      requires left == |input| - start.Held(|input|) && inTotal == Cast(start.inTotal + start.Held(|input|), SPAN)
      requires outTotal == start.outTotal + |start.HeaderJob(|input|, header).Made(h)|
      modifies this`inTotal, this`outTotal, this`made, this`passed, this`finished, this`past
      ensures CapsNow().bounded ==> outTotal <= CapsNow().product || outTotal == old(outTotal)
      ensures rc == BodyLimit ==> CapsNow().Over(|made|)
      ensures Valid() && passed == old(passed) + out && k > 0
      ensures made == old(made) + start.MainJob(|input|, header, h, script).Made(k)
      ensures start.Explains(|input|, header, h, script, k, enc == Gzip, rc)
      ensures rc == Ok || rc == WouldBlock ==> passed == made && (finished <==> rc == Ok)
      ensures inTotal == Cast(start.inTotal + |input|, SPAN)
      ensures rc != BodyDecode ==> past == old(past)
      ensures rc == BodyDecode && Willing(script) ==> past == start.Past(|input|, header, h, script, k) > 0
    {
      CastAdds(start.inTotal + start.Held(|input|), left, SPAN);
      inTotal := Cast(inTotal + left, SPAN);
      rc, out, k := Pump(start.MainJob(|input|, header, h, script), left, script);
    }

    /** The header and then the input, for a stream that has not ended. */
    method Proceed(ghost start: Start, input: seq<Byte>, initOk: bool, header: seq<Answer>, script: seq<Answer>)
      returns (rc: Code, out: seq<Byte>, ghost h: nat, ghost k: nat)
      requires Valid() && !finished && passed == made && start == StartNow()
      modifies this
      ensures start.decided && CapsNow().bounded ==> outTotal <= CapsNow().product || outTotal == start.outTotal
      ensures rc == BodyLimit ==> CapsNow().Over(|made|)
      ensures Valid() && passed == old(passed) + out
      ensures start.decided ==> h == 0
      ensures made == old(made) + start.Made(|input|, header, h, script, k)
      ensures start.Explains(|input|, header, h, script, k, enc == Gzip, rc)
      ensures h == 0 && k == 0 ==> rc == WouldBlock || (rc == BodyDecode && !initOk)
      ensures rc == WouldBlock && k == 0 ==> !wrapDecided && hdrLen == start.hdrLen + |input| < 2
      ensures rc == Ok && k == 0 ==>
        |input| == start.Held(|input|) && 0 < h <= |header| && header[h - 1].ret == ZStreamEnd
      ensures rc == Ok || rc == WouldBlock ==>
        passed == made && (finished <==> rc == Ok) && inTotal == Cast(start.inTotal + |input|, SPAN)
      ensures rc != BodyDecode ==> past == old(past)
      ensures rc == BodyDecode && initOk && Willing(header) && Willing(script) ==>
        past == start.Past(|input|, header, h, script, k) > 0
    {
      k := 0;
      var left, over;
      rc, out, left, over, h := Begin(start, input, initOk, header, script);
      if !over {
        var more;
        ghost var first := out;
        rc, more, k := Rest(start, input, header, h, script, left);
        out := out + more;
        Regroup(old(passed), first, more);
        Regroup(old(made), start.HeaderJob(|input|, header).Made(h),
                start.MainJob(|input|, header, h, script).Made(k));
      }
    }

    /** A new run: after the end of the stream nothing more is expected but the next gzip member. */
    method Enter(ghost start: Start, input: seq<Byte>, reset: bool, initOk: bool,
                 header: seq<Answer>, script: seq<Answer>)
      returns (rc: Code, out: seq<Byte>, ghost h: nat, ghost k: nat)
      requires Valid() && passed == made && start == StartNow()
      modifies this
      ensures start.decided && CapsNow().bounded ==> outTotal <= CapsNow().product || outTotal == start.outTotal
      ensures rc == BodyLimit ==> CapsNow().Over(|made|)
      ensures Valid() && passed == old(passed) + out
      ensures start.decided ==> h == 0
      ensures made == old(made) + start.Made(|input|, header, h, script, k)
      ensures start.Explains(|input|, header, h, script, k, enc == Gzip, rc)
      ensures h == 0 && k == 0 && rc == Ok ==> old(finished) && input == []
      ensures h == 0 && k == 0 && rc == BodyDecode ==> !initOk || (old(finished) && input != [])
      ensures rc == WouldBlock && k == 0 ==> !wrapDecided && hdrLen == start.hdrLen + |input| < 2
      ensures rc == Ok && k == 0 ==> |input| == start.Held(|input|)
      ensures rc == Ok && k == 0 && h > 0 ==> h <= |header| && header[h - 1].ret == ZStreamEnd
      ensures rc == Ok || rc == WouldBlock ==>
        passed == made && (finished <==> rc == Ok) && inTotal == Cast(start.inTotal + |input|, SPAN)
      ensures rc != BodyDecode ==> past == old(past)
      ensures rc == BodyDecode && reset && initOk && Willing(header) && Willing(script) ==>
        0 < past == start.Past(|input|, header, h, script, k) <= |input|
    {
      if finished {
        if input == [] {
          return Ok, [], 0, 0;
        }
        rc := NextMember(reset);
        if rc != Ok {
          past := |input|;
          return rc, [], 0, 0;
        }
      }
      rc, out, h, k := Proceed(start, input, initOk, header, script);
    }

    /** Inflate one run of body bytes. `initOk` is zlib accepting the chosen deflate wrapping. What
        was made is what `h` calls on the header and `k` on the input put out; the last of them
        says why the run ended as it did. Within the caps that is all zlib said, in the order it said
        it, and the end is where zlib's own answers put it. Without a call there was nothing to inflate: the stream
        had ended, its header is not complete, or zlib would not start. With willing answers data
        is malformed only for coming after the end of the stream, and `past` is how much did. */
    method Run(input: seq<Byte>, reset: bool, initOk: bool, header: seq<Answer>, script: seq<Answer>)
      returns (rc: Code, out: seq<Byte>, ghost h: nat, ghost k: nat)
      requires Valid() && passed == made
      modifies this
      ensures old(wrapDecided) && CapsNow().bounded ==>
        outTotal <= CapsNow().product || outTotal == old(outTotal)
      ensures rc == BodyLimit ==> CapsNow().Over(|made|)
      ensures Valid() && passed == old(passed) + out
      ensures old(wrapDecided) ==> h == 0
      ensures made == old(made) + old(StartNow()).Made(|input|, header, h, script, k)
      ensures old(StartNow()).Explains(|input|, header, h, script, k, enc == Gzip, rc)
      ensures h == 0 && k == 0 && rc == Ok ==> old(finished) && input == []
      ensures h == 0 && k == 0 && rc == BodyDecode ==> !initOk || (old(finished) && input != [])
      ensures rc == WouldBlock && k == 0 ==> !wrapDecided && hdrLen == old(hdrLen) + |input| < 2
      ensures rc == Ok && k == 0 ==> |input| == old(StartNow()).Held(|input|)
      ensures rc == Ok && k == 0 && h > 0 ==> h <= |header| && header[h - 1].ret == ZStreamEnd
      ensures old(StartNow()).Within(|input|, header, h, script, k) ==>
        made == old(made) + (Said(header, h) + Said(script, k))
      ensures k > 0 ==>
        var behind := |input| - old(StartNow()).Held(|input|);
        WentOn(behind, script, k - 1, enc == Gzip) && EndedWith(behind, script, k, enc == Gzip, rc)
      ensures rc == Ok || rc == WouldBlock ==>
        passed == made && (finished <==> rc == Ok) && inTotal == Cast(old(inTotal) + |input|, SPAN)
      ensures rc != BodyDecode ==> past == old(past)
      ensures rc == BodyDecode && reset && initOk && Willing(header) && Willing(script) ==>
        0 < past == old(StartNow()).Past(|input|, header, h, script, k) <= |input|
    {
      ghost var start := StartNow();
      rc, out, h, k := Enter(start, input, reset, initOk, header, script);
      RunByAnswers(start, |input|, header, h, script, k, enc == Gzip, rc);
    }

    /** At the end of the body the compressed stream must have ended, unless nothing ever came. */
    method Finish() returns (rc: Code)
      requires Valid()
      ensures rc == if finished || inTotal == 0 then Ok else BodyDecode
    {
      rc := if finished || inTotal == 0 then Ok else BodyDecode;
    }
  }
}
