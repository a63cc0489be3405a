/**
 Decoding in pieces decides what one pass over the whole response decides, whatever prefixes of the
 response were decoded on the way and in whatever order, and whether or not those calls threw.
 */
module FetchResume {
  import opened ByteBuffer
  import opened FetchDecoder
  import opened FetchMessages
  import opened Protocol
  import opened RowFormat
  import opened RowSettled

  /** Two states that differ at most in the last end-of-call seen, which is not kept between calls. */
  ghost predicate AlikePass(a: Pass, b: Pass) {
    a.(completion := None) == b.(completion := None)
  }

  ghost predicate Alike(a: Outcome, b: Outcome) {
    match (a, b)
    case (Finished(p), Finished(q)) => AlikePass(p, q) && (p.exhausted ==> p == q)
    case (Threw(_, _), Threw(_, _)) => a == b
    case _ => false
  }

  lemma MessageSettled(ctx: Context, short: Bytes, long: Bytes, pass: Pass)
    requires short <= long && pass.offset < |short|
    ensures Settled(RowHeaderAt(short, pass.offset, |ctx.columns|), RowHeaderAt(long, pass.offset, |ctx.columns|))
    ensures Settled(ErrorAt(short, pass.offset, ctx.version), ErrorAt(long, pass.offset, ctx.version))
    ensures Settled(ParameterAt(short, pass.offset), ParameterAt(long, pass.offset))
    ensures Settled(StatusAt(short, pass.offset), StatusAt(long, pass.offset))
    ensures Settled(PiggybackAt(short, pass.offset), PiggybackAt(long, pass.offset))
  {
    hide *;
    RowHeaderSettled(short, long, pass.offset, |ctx.columns|);
    ErrorSettled(short, long, pass.offset, ctx.version);
    ParameterSettled(short, long, pass.offset);
    StatusSettled(short, long, pass.offset);
    PiggybackSettled(short, long, pass.offset);
  }

  lemma RowStepAgrees(ctx: Context, short: Bytes, long: Bytes, pass: Pass)
    requires short <= long && pass.offset < |short|
    ensures RowStep(ctx, short, pass) == Err(Truncated) || RowStep(ctx, long, pass) == RowStep(ctx, short, pass)
  {
    hide RowDataAt, AccountRow, Overlay, Carrying, KeepRow;
    var wire := WireColumns(ctx.columns, pass.pending);
    if wire.Ok? {
      RowDataSettled(short, long, pass.offset, wire.value, ctx.columns, ctx.limits);
    }
  }

  lemma ContinuationStepAgrees(ctx: Context, short: Bytes, long: Bytes, pass: Pass)
    requires short <= long && pass.offset < |short|
    ensures ContinuationStep(ctx, short, pass) == Err(Truncated)
         || ContinuationStep(ctx, long, pass) == ContinuationStep(ctx, short, pass)
  {
    hide ContinuationAt, RowDataAt, AccountRow, Overlay, Carrying, KeepRow;
    ContinuationSettled(short, long, pass.offset, |ctx.columns|);
    var changed := ContinuationAt(short, pass.offset, |ctx.columns|);
    if changed.Got? {
      var wire := WireColumns(ctx.columns, Some(changed.value));
      if wire.Ok? {
        RowDataSettled(short, long, changed.next, wire.value, ctx.columns, ctx.limits);
      }
    }
  }

  /** A message decodes the same from a longer buffer, except that an end-of-call which ends the shorter
      buffer may not end the longer one. */
  lemma StepAgrees(ctx: Context, short: Bytes, long: Bytes, pass: Pass)
    requires short <= long && pass.offset < |short|
    ensures var a, b := Step(ctx, short, pass), Step(ctx, long, pass);
      || a == Err(Truncated)
      || a == b
      || (a.Ok? && b.Ok? && a.value.completed && a.value == b.value.(completed := true))
  {
    hide RowHeaderAt, ErrorAt, ParameterAt, StatusAt, PiggybackAt, RowStep, ContinuationStep;
    assert short[pass.offset] == long[pass.offset];
    MessageSettled(ctx, short, long, pass);
    RowStepAgrees(ctx, short, long, pass);
    ContinuationStepAgrees(ctx, short, long, pass);
  }

  /** What a step keeps: nothing new, or exactly the state it leads to, from which a call can resume. */
  lemma StepKeeps(ctx: Context, message: Bytes, pass: Pass, next: Pass)
    requires pass.offset < |message| && !pass.completed && !pass.exhausted
    requires Step(ctx, message, pass) == Ok(next)
    ensures next.exhausted ==> next.completed
    ensures next.kept != pass.kept ==>
      !next.completed && next.kept.offset == next.offset && AlikePass(Resumed(next.kept), next)
  {
    hide RowHeaderAt, ErrorAt, ParameterAt, StatusAt, PiggybackAt, ContinuationAt, RowDataAt, AccountRow, Overlay, Carrying;
  }

  ghost predicate AlikeStep(a: Pass, x: Result<Pass>, y: Result<Pass>) {
    if x.Err? then y == x
    else y.Ok? && AlikePass(x.value, y.value) && (x.value.exhausted && !a.exhausted ==> x == y)
  }

  lemma KeepRowAlike(a: Pass, b: Pass, row: Row)
    requires AlikePass(a, b)
    ensures AlikePass(KeepRow(a, row), KeepRow(b, row)) && KeepRow(a, row).exhausted == a.exhausted
  {
  }

  lemma RowStepAlike(ctx: Context, message: Bytes, a: Pass, b: Pass)
    requires a.offset < |message| && AlikePass(a, b)
    ensures AlikeStep(a, RowStep(ctx, message, a), RowStep(ctx, message, b))
  {
    hide RowValuesAt, WireColumns, AccountRow, Overlay, KeepRow, NullRow;
    var wire := WireColumns(ctx.columns, a.pending);
    if wire.Ok? {
      var read := RowValuesAt(ctx, message, a.offset, wire.value);
      if read.Got? {
        var previous := if a.pending.Some? then Previous(ctx, a.rows) else None;
        var used := AccountRow(ctx, |a.rows|, a.batchBytes, read.value, wire.value, previous);
        if used.Ok? && previous.Some? {
          KeepRowAlike(a.(offset := read.next, batchBytes := used.value, usedHeader := true, pending := None),
                       b.(offset := read.next, batchBytes := used.value, usedHeader := true, pending := None),
                       Overlay(previous.value, wire.value, read.value));
        } else if used.Ok? && a.pending.None? {
          KeepRowAlike(a.(offset := read.next, batchBytes := used.value), b.(offset := read.next, batchBytes := used.value),
                       Overlay(NullRow(|ctx.columns|), wire.value, read.value));
        }
      }
    }
  }

  lemma ContinuationStepAlike(ctx: Context, message: Bytes, a: Pass, b: Pass)
    requires a.offset < |message| && AlikePass(a, b)
    ensures AlikeStep(a, ContinuationStep(ctx, message, a), ContinuationStep(ctx, message, b))
  {
    hide ContinuationAt, RowDataAt, WireColumns, AccountRow, Overlay;
  }

  lemma StepAlike(ctx: Context, message: Bytes, a: Pass, b: Pass)
    requires a.offset < |message| && AlikePass(a, b)
    ensures AlikeStep(a, Step(ctx, message, a), Step(ctx, message, b))
  {
    RowStepAlike(ctx, message, a, b);
    ContinuationStepAlike(ctx, message, a, b);
    OtherStepsAlike(ctx, message, a, b);
    StepIs(ctx, message, a);
    StepIs(ctx, message, b);
    assert a.offset == b.offset && a.completed == b.completed;
    if message[a.offset] == MESSAGE_END_OF_REQUEST {
      hide HeaderStep, ErrorStep, SkipStep, RowStep, ContinuationStep, Step;
    } else {
      hide HeaderStep, ErrorStep, SkipStep, ParameterAt, StatusAt, PiggybackAt, RowStep, ContinuationStep, AlikePass, Step;
    }
  }

  lemma StepIs(ctx: Context, message: Bytes, pass: Pass)
    requires pass.offset < |message|
    ensures var kind := message[pass.offset];
      Step(ctx, message, pass)
      == if kind == MESSAGE_ROW_HEADER then HeaderStep(ctx, message, pass)
         else if kind == MESSAGE_ROW_DATA then RowStep(ctx, message, pass)
         else if kind == MESSAGE_ROW_CONTINUATION then ContinuationStep(ctx, message, pass)
         else if kind == MESSAGE_PARAMETER then SkipStep(ParameterAt(message, pass.offset), pass, pass.completed)
         else if kind == MESSAGE_ERROR then ErrorStep(ctx, message, pass)
         else if kind == MESSAGE_STATUS then SkipStep(StatusAt(message, pass.offset), pass, true)
         else if kind == MESSAGE_END_OF_REQUEST then Ok(pass.(offset := pass.offset + 1, completed := true))
         else if kind == MESSAGE_SERVER_PIGGYBACK then SkipStep(PiggybackAt(message, pass.offset), pass, pass.completed)
         else Err(Malformed)
  {
  }

  lemma OtherStepsAlike(ctx: Context, message: Bytes, a: Pass, b: Pass)
    requires a.offset < |message| && AlikePass(a, b)
    ensures AlikeStep(a, HeaderStep(ctx, message, a), HeaderStep(ctx, message, b))
    ensures AlikeStep(a, ErrorStep(ctx, message, a), ErrorStep(ctx, message, b))
    ensures forall skipped: Read<()>, completed: bool ::
      AlikeStep(a, SkipStep(skipped, a, completed), SkipStep(skipped, b, completed))
  {
    hide RowHeaderAt, ErrorAt;
  }

  /** Passes from states that differ only in the last end-of-call seen go the same way. */
  lemma {:induction false} RunAlike(ctx: Context, message: Bytes, a: Pass, b: Pass)
    requires AlikePass(a, b) && !a.exhausted
    ensures Alike(Run(ctx, message, a), Run(ctx, message, b))
    decreases |message| - a.offset
  {
    hide Step;
    if a.offset < |message| && !a.completed {
      StepAlike(ctx, message, a, b);
      var x, y := Step(ctx, message, a), Step(ctx, message, b);
      if x.Ok? && !x.value.exhausted {
        RunAlike(ctx, message, x.value, y.value);
      } else if x.Ok? {
        ExhaustedCompletes(ctx, message, a, x.value);
      }
    }
  }

  lemma ExhaustedCompletes(ctx: Context, message: Bytes, pass: Pass, next: Pass)
    requires pass.offset < |message| && !pass.completed && !pass.exhausted
    requires Step(ctx, message, pass) == Ok(next)
    ensures next.exhausted ==> next.completed
  {
    StepKeeps(ctx, message, pass, next);
  }

  lemma AlikeTransitive(a: Outcome, b: Outcome, c: Outcome)
    requires Alike(a, b) && Alike(b, c)
    ensures Alike(a, c)
  {
  }

  /** What a pass over a prefix keeps lies on the pass over the whole response. */
  lemma {:induction false} KeptOnPath(ctx: Context, short: Bytes, long: Bytes, pass: Pass)
    requires short <= long && pass.offset <= |short| && !pass.completed && !pass.exhausted
    ensures var kept := Run(ctx, short, pass).KeptState();
      || kept == pass.kept
      || (0 < kept.offset <= |short| && Alike(Run(ctx, long, Resumed(kept)), Run(ctx, long, pass)))
    decreases |short| - pass.offset
  {
    hide Step;
    if pass.offset < |short| {
      StepAgrees(ctx, short, long, pass);
      var a := Step(ctx, short, pass);
      if a.Ok? {
        var next := a.value;
        StepKeeps(ctx, short, pass, next);
        if !next.completed {
          KeptOnPath(ctx, short, long, next);
          var kept := Run(ctx, short, next).KeptState();
          if kept == next.kept && kept != pass.kept {
            RunAlike(ctx, long, Resumed(kept), next);
          }
        }
      }
    }
  }

  lemma CallOnPath(ctx: Context, short: Bytes, long: Bytes, kept: Kept)
    requires short <= long && |long| <= MAX_MESSAGE_BYTES
    ensures Alike(DecodeCall(ctx, long, DecodeCall(ctx, short, kept).KeptState()), DecodeCall(ctx, long, kept))
  {
    hide Run, AccountRow;
    if kept.offset <= |short| && PrecedingFits(ctx, kept).Ok? {
      KeptOnPath(ctx, short, long, Resumed(kept));
    }
    AlikeReflexive(DecodeCall(ctx, long, kept));
  }

  lemma AlikeReflexive(a: Outcome)
    ensures Alike(a, a)
  {
  }

  lemma {:induction false} FedOnPath(ctx: Context, message: Bytes, prefixes: seq<Bytes>, kept: Kept)
    requires |message| <= MAX_MESSAGE_BYTES
    requires forall i :: 0 <= i < |prefixes| ==> prefixes[i] <= message
    ensures Alike(DecodeCall(ctx, message, Fed(ctx, prefixes, kept)), DecodeCall(ctx, message, kept))
  {
    hide DecodeCall;
    if prefixes == [] {
      AlikeReflexive(DecodeCall(ctx, message, kept));
    } else {
      var next := DecodeCall(ctx, prefixes[0], kept).KeptState();
      CallOnPath(ctx, prefixes[0], message, kept);
      FedOnPath(ctx, message, prefixes[1..], next);
      AlikeTransitive(DecodeCall(ctx, message, Fed(ctx, prefixes, kept)), DecodeCall(ctx, message, next),
        DecodeCall(ctx, message, kept));
    }
  }

  /** Main result. Whatever prefixes of a response a decoder was given first, decoding the whole response
      ends with the same rows, budget, flags, bytes consumed and kept state as one call of a fresh decoder,
      or throws the same error; and the end-of-call is the same too when it says the rows are exhausted.
      A response past the wire budget is refused either way. */
  lemma ResumedEqualsOnePass(ctx: Context, message: Bytes, prefixes: seq<Bytes>)
    requires forall i :: 0 <= i < |prefixes| ==> prefixes[i] <= message
    ensures var resumed, onePass := DecodeCall(ctx, message, Fed(ctx, prefixes, NOTHING_KEPT)), DecodeCall(ctx, message, NOTHING_KEPT);
      if |message| <= MAX_MESSAGE_BYTES then Alike(resumed, onePass)
      else resumed.Threw? && onePass.Threw? && resumed.kind == onePass.kind == LimitExceeded
  {
    if |message| <= MAX_MESSAGE_BYTES {
      FedOnPath(ctx, message, prefixes, NOTHING_KEPT);
    }
  }
}
