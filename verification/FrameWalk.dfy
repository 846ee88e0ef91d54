/** Capturing a stack by walking the chain of saved frame pointers. */
module FrameWalk {
  import opened Wrappers

  const WORD_SIZE := 8
  const FRAME_RECORD_SIZE := 16
  const SOFT_MAX_DEPTH := 128
  const ADDRESS_SPACE := 0x1_0000_0000_0000_0000

  // ---------- the bounds of the thread's stack ----------

  datatype StackBounds = StackBounds(low: nat, maxFrame: nat)
  const EMPTY_BOUNDS := StackBounds(1, 0)

  /** What the thread library reports, unless one of its calls fails. */
  datatype StackAttributes = Unavailable | Stack(addr: nat, size: nat)

  function CurrentThreadStackBounds(attr: StackAttributes): StackBounds {
    match attr
    case Unavailable => EMPTY_BOUNDS
    case Stack(low, size) =>
      if low + size >= ADDRESS_SPACE then EMPTY_BOUNDS
      else if low + size < FRAME_RECORD_SIZE then EMPTY_BOUNDS
      else
        var maxFrame := low + size - FRAME_RECORD_SIZE;
        if low == 0 || maxFrame < low then EMPTY_BOUNDS else StackBounds(low, maxFrame)
  }

  predicate ContainsFrame(b: StackBounds, fp: nat) {
    b.low <= fp <= b.maxFrame && fp % WORD_SIZE == 0
  }

  /** An aligned two-word record that lies wholly in the reported stack. */
  predicate RecordInStack(attr: StackAttributes, fp: nat) {
    attr.Stack? && attr.addr != 0 && attr.addr + attr.size < 18446744073709551616
    && fp % 8 == 0 && attr.addr <= fp && fp + 16 <= attr.addr + attr.size
  }

  /** The bounds accept exactly the records that lie in the stack. */
  lemma BoundsAreExact(attr: StackAttributes, fp: nat)
    ensures ContainsFrame(CurrentThreadStackBounds(attr), fp) <==> RecordInStack(attr, fp)
  {
  }

  /** The bounds are asked for once per thread. */
  class StackBoundsCell {
    var cached: Option<StackBounds>

    constructor ()
      ensures cached == None
    {
      cached := None;
    }

    method Get(attr: StackAttributes) returns (b: StackBounds)
      modifies this
      ensures b == if old(cached).Some? then old(cached).value else CurrentThreadStackBounds(attr)
      ensures cached == Some(b)
    {
      if cached.Some? {
        return cached.value;
      }
      b := CurrentThreadStackBounds(attr);
      cached := Some(b);
    }
  }

  // ---------- the walk ----------

  /** The words that may be read: exactly the aligned ones inside the stack. */
  ghost predicate StackMemory(attr: StackAttributes, mem: map<nat, nat>) {
    forall a :: a in mem <==>
      attr.Stack? && a % WORD_SIZE == 0 && attr.addr <= a && a + WORD_SIZE <= attr.addr + attr.size
  }

  /** Both words of every record within the bounds can be read. */
  ghost predicate Readable(b: StackBounds, mem: map<nat, nat>) {
    forall fp: nat {:trigger ContainsFrame(b, fp)} :: ContainsFrame(b, fp) ==> fp in mem && fp + WORD_SIZE in mem
  }

  lemma NextWordAligned(a: nat)
    requires a % WORD_SIZE == 0
    ensures (a + WORD_SIZE) % WORD_SIZE == 0
  {
  }

  lemma StackIsReadable(attr: StackAttributes, mem: map<nat, nat>)
    requires StackMemory(attr, mem)
    ensures Readable(CurrentThreadStackBounds(attr), mem)
  {
    var b := CurrentThreadStackBounds(attr);
    forall fp: nat | ContainsFrame(b, fp) ensures fp in mem && fp + WORD_SIZE in mem {
      BoundsAreExact(attr, fp);
      assert RecordInStack(attr, fp);
      NextWordAligned(fp);
    }
  }

  /** The call addresses of a chain of frames, without a limit on their number. `adjust` takes
      a return address back into the call instruction. */
  function Chain(b: StackBounds, mem: map<nat, nat>, fp: nat, adjust: nat): seq<nat>
    requires Readable(b, mem)
    decreases if ContainsFrame(b, fp) then b.maxFrame - fp + 1 else 0
  {
    if !ContainsFrame(b, fp) || mem[fp + WORD_SIZE] < adjust then []
    else
      var next := mem[fp];
      [mem[fp + WORD_SIZE] - adjust] + if next > fp then Chain(b, mem, next, adjust) else []
  }

  predicate InBounds(b: StackBounds, fp: nat) {
    b.low <= fp <= b.maxFrame && fp % 8 == 0
  }

  /** The frames walked: each one within the bounds, with a return address that can be adjusted,
      and each above the one before, which points to it. */
  ghost predicate Linked(b: StackBounds, mem: map<nat, nat>, fp: nat, adjust: nat, fps: seq<nat>)
    requires Readable(b, mem)
  {
    && (fps != [] ==> fps[0] == fp)
    && (forall k | 0 <= k < |fps| ::
        InBounds(b, fps[k]) && fps[k] in mem && fps[k] + 8 in mem && mem[fps[k] + 8] >= adjust)
    && (forall k | 0 <= k < |fps| - 1 :: fps[k + 1] == mem[fps[k]] > fps[k])
  }

  /** There is nowhere to go on: the saved pointer does not lead up, or leads out of the bounds,
      or to a return address that cannot be adjusted. */
  ghost predicate Ends(b: StackBounds, mem: map<nat, nat>, fp: nat, adjust: nat, fps: seq<nat>)
    requires Readable(b, mem) && Linked(b, mem, fp, adjust, fps)
  {
    var next := if fps == [] then fp else mem[fps[|fps| - 1]];
    || (fps != [] && next <= fps[|fps| - 1])
    || !InBounds(b, next)
    || (next + 8 in mem && mem[next + 8] < adjust)
  }

  lemma EndsAtOnce(b: StackBounds, mem: map<nat, nat>, fp: nat, adjust: nat)
    requires Readable(b, mem) && (!ContainsFrame(b, fp) || mem[fp + WORD_SIZE] < adjust)
    ensures Linked(b, mem, fp, adjust, []) && Ends(b, mem, fp, adjust, [])
  {
  }

  lemma EndsAfterOne(b: StackBounds, mem: map<nat, nat>, fp: nat, adjust: nat)
    requires Readable(b, mem) && ContainsFrame(b, fp) && mem[fp + WORD_SIZE] >= adjust && mem[fp] <= fp
    ensures Linked(b, mem, fp, adjust, [fp]) && Ends(b, mem, fp, adjust, [fp])
  {
  }

  lemma LinkedMore(b: StackBounds, mem: map<nat, nat>, fp: nat, adjust: nat, more: seq<nat>)
    requires Readable(b, mem) && InBounds(b, fp) && fp in mem && fp + 8 in mem
    requires mem[fp + 8] >= adjust && mem[fp] > fp && Linked(b, mem, mem[fp], adjust, more)
    ensures Linked(b, mem, fp, adjust, [fp] + more)
    ensures Ends(b, mem, mem[fp], adjust, more) ==> Ends(b, mem, fp, adjust, [fp] + more)
  {
    hide InBounds, Readable;
    var fps := [fp] + more;
    forall k | 0 <= k < |fps| - 1 ensures fps[k + 1] == mem[fps[k]] > fps[k] {
      assert fps[k + 1] == more[k];
    }
  }

  /** For any memory: the chain holds, frame by frame, the call addresses of the frames walked,
      and the walk ends only where it must. */
  lemma {:induction false} ChainIs(b: StackBounds, mem: map<nat, nat>, fp: nat, adjust: nat) returns (fps: seq<nat>)
    requires Readable(b, mem)
    ensures Linked(b, mem, fp, adjust, fps) && Ends(b, mem, fp, adjust, fps)
    ensures |Chain(b, mem, fp, adjust)| == |fps|
    ensures forall k | 0 <= k < |fps| :: Chain(b, mem, fp, adjust)[k] == mem[fps[k] + 8] - adjust
    decreases if ContainsFrame(b, fp) then b.maxFrame - fp + 1 else 0
  {
    hide Linked, Ends;
    if !ContainsFrame(b, fp) || mem[fp + WORD_SIZE] < adjust {
      fps := [];
      EndsAtOnce(b, mem, fp, adjust);
    } else if mem[fp] <= fp {
      fps := [fp];
      EndsAfterOne(b, mem, fp, adjust);
    } else {
      var more := ChainIs(b, mem, mem[fp], adjust);
      fps := [fp] + more;
      assert InBounds(b, fp);
      LinkedMore(b, mem, fp, adjust, more);
    }
  }

  function Take<T>(s: seq<T>, n: nat): seq<T> {
    if |s| <= n then s else s[..n]
  }

  /** What the loop comes to from a frame and the addresses found so far. */
  function Walk(b: StackBounds, mem: map<nat, nat>, fp: nat, adjust: nat, bt: seq<nat>): seq<nat>
    requires Readable(b, mem)
    decreases if ContainsFrame(b, fp) then b.maxFrame - fp + 1 else 0
  {
    if |bt| >= SOFT_MAX_DEPTH || !ContainsFrame(b, fp) || mem[fp + WORD_SIZE] < adjust then bt
    else
      var callPc: nat := mem[fp + WORD_SIZE] - adjust;
      if mem[fp] > fp then Walk(b, mem, mem[fp], adjust, bt + [callPc]) else bt + [callPc]
  }

  /** The loop finds as much of the chain as the limit leaves room for. */
  lemma {:induction false} WalkTakesChain(b: StackBounds, mem: map<nat, nat>, fp: nat, adjust: nat, bt: seq<nat>)
    requires Readable(b, mem) && |bt| <= SOFT_MAX_DEPTH
    ensures Walk(b, mem, fp, adjust, bt) == bt + Take(Chain(b, mem, fp, adjust), SOFT_MAX_DEPTH - |bt|)
    decreases if ContainsFrame(b, fp) then b.maxFrame - fp + 1 else 0
  {
    var chain := Chain(b, mem, fp, adjust);
    if |bt| == SOFT_MAX_DEPTH || !ContainsFrame(b, fp) || mem[fp + WORD_SIZE] < adjust {
      assert Take(chain, SOFT_MAX_DEPTH - |bt|) == [];
    } else {
      var callPc: nat := mem[fp + WORD_SIZE] - adjust;
      var rest := if mem[fp] > fp then Chain(b, mem, mem[fp], adjust) else [];
      if mem[fp] > fp {
        WalkTakesChain(b, mem, mem[fp], adjust, bt + [callPc]);
      }
      assert chain == [callPc] + rest;
      TakeOneMore(bt, callPc, rest, SOFT_MAX_DEPTH - |bt|);
    }
  }

  lemma {:induction false} TakeOneMore(bt: seq<nat>, first: nat, rest: seq<nat>, n: nat)
    requires n > 0
    ensures bt + Take([first] + rest, n) == bt + [first] + Take(rest, n - 1)
  {
    assert Take([first] + rest, n) == [first] + Take(rest, n - 1);
  }

  /** Terminates for any memory contents, reads only mapped words, and returns the captured
      address followed by the first 127 addresses of the chain. */
  method Trace(pc: nat, start: nat, b: StackBounds, mem: map<nat, nat>, adjust: nat) returns (bt: seq<nat>)
    requires Readable(b, mem)
    ensures bt == [pc] + Take(Chain(b, mem, start, adjust), 127)
    ensures 1 <= |bt| <= 128
  {
    WalkTakesChain(b, mem, start, adjust, [pc]);
    bt := [pc];
    var fp: nat := start;
    while |bt| < SOFT_MAX_DEPTH && ContainsFrame(b, fp)
      invariant Walk(b, mem, fp, adjust, bt) == Walk(b, mem, start, adjust, [pc])
      decreases b.maxFrame - fp
    {
      var returnAddress := mem[fp + WORD_SIZE];
      if returnAddress < adjust {
        break;
      }
      var callPc: nat := returnAddress - adjust;
      var next: nat := mem[fp];
      ghost var before := bt;
      bt := bt + [callPc];
      if next <= fp {
        assert Walk(b, mem, fp, adjust, before) == bt;
        return;
      }
      fp := next;
    }
  }

  /** The walk over a thread's own stack never leaves it. */
  method TraceThread(pc: nat, fp: nat, attr: StackAttributes, mem: map<nat, nat>, adjust: nat, cell: StackBoundsCell)
    returns (bt: seq<nat>)
    requires StackMemory(attr, mem)
    requires cell.cached.Some? ==> cell.cached.value == CurrentThreadStackBounds(attr)
    modifies cell
    ensures Readable(CurrentThreadStackBounds(attr), mem)
    ensures bt == [pc] + Take(Chain(CurrentThreadStackBounds(attr), mem, fp, adjust), 127)
  {
    StackIsReadable(attr, mem);
    var b := cell.Get(attr);
    bt := Trace(pc, fp, b, mem, adjust);
  }

  // ---------- well-formed stacks ----------

  /** A frame record in memory: where it is, and the address its function returns to. */
  datatype Frame = Frame(fp: nat, returnAddress: nat)

  /** Frames kept by the calling convention: each record points to its caller's, further up
      the stack; the last one's saved pointer leads nowhere. */
  predicate LaidOut(b: StackBounds, mem: map<nat, nat>, frames: seq<Frame>, adjust: nat)
    requires Readable(b, mem)
  {
    frames != [] ==>
      var f := frames[0];
      && ContainsFrame(b, f.fp) && mem[f.fp + WORD_SIZE] == f.returnAddress && f.returnAddress >= adjust
      && (if |frames| > 1 then mem[f.fp] == frames[1].fp && frames[1].fp > f.fp
          else mem[f.fp] <= f.fp || !ContainsFrame(b, mem[f.fp]))
      && LaidOut(b, mem, frames[1..], adjust)
  }

  function Callers(frames: seq<Frame>, adjust: nat): seq<nat>
    requires forall k | 0 <= k < |frames| :: frames[k].returnAddress >= adjust
  {
    seq(|frames|, k requires 0 <= k < |frames| => frames[k].returnAddress - adjust)
  }

  lemma {:induction false} LaidOutReturns(b: StackBounds, mem: map<nat, nat>, frames: seq<Frame>, adjust: nat)
    requires Readable(b, mem) && LaidOut(b, mem, frames, adjust)
    ensures forall k | 0 <= k < |frames| :: frames[k].returnAddress >= adjust
  {
    if frames != [] {
      LaidOutReturns(b, mem, frames[1..], adjust);
      forall k | 0 <= k < |frames| ensures frames[k].returnAddress >= adjust {
        if k > 0 { assert frames[k] == frames[1..][k - 1]; }
      }
    }
  }

  /** From the innermost frame of a well-formed stack the chain is exactly its callers. */
  lemma {:induction false} ChainRecoversCallers(b: StackBounds, mem: map<nat, nat>, frames: seq<Frame>, adjust: nat)
    requires Readable(b, mem) && frames != [] && LaidOut(b, mem, frames, adjust)
    ensures forall k | 0 <= k < |frames| :: frames[k].returnAddress >= adjust
    ensures Chain(b, mem, frames[0].fp, adjust) == Callers(frames, adjust)
    decreases |frames|
  {
    LaidOutReturns(b, mem, frames, adjust);
    if |frames| > 1 {
      ChainRecoversCallers(b, mem, frames[1..], adjust);
      assert Callers(frames, adjust) == [frames[0].returnAddress - adjust] + Callers(frames[1..], adjust);
    }
  }
}
