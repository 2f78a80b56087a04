/**
 The map wrappers: a class whose fields hold a descriptor, a pin path and a userspace ring or perf
 buffer, proved against one specification function per operation. `WrapperRuns` shows what these
 keep when many wrappers share one kernel.
 */
module MapWrappers {
  import opened Basics

  datatype Layout = Layout(mapType: nat, keySize: nat, valueSize: nat, maxEntries: nat)

  const RINGBUF := 27
  const PERF_EVENT_ARRAY := 4
  const TWO_32 := 0x1_0000_0000

  /** What the constructor was asked for; recorded sizes are `size_t`. */
  datatype Kind = PlainMap(layout: Layout) | Ring(size: nat) | Perf(pages: int)

  datatype Code =
    | NoError
    | OpenError
    | NotOpenedError
    | AlreadyOpenedError
    | AlreadyPinnedError
    | AlreadyOwnsPinError
    | CloseError
    | PinningError
    | NotPinnedError
    | UnpinningError
    | InvalidUnpinError
    | CallbackNotSetError
    | BufferMakeError
    | InvalidPerfPageSizeError
    | InvalidRingBufferSizeError
    | PerfFailedToGetCpuCountError
    | BpfRuntimeInitError
    | PinnedMapMismatchError

  // ---------------------------------------------------------------- kernel

  /**
   Open descriptors with their map objects, object layouts, bpffs, and userspace buffers with the
   descriptor they read from. `tickets` records which `pin()`, by serial number, created a path.
   `clean` falls when a descriptor is closed that is not open or still carries a buffer, or a
   buffer is freed that does not exist.
   */
  datatype Kernel = Kernel(
    fds: map<nat, nat>,
    layouts: map<nat, Layout>,
    paths: map<string, nat>,
    buffers: map<nat, nat>,
    tickets: map<string, nat>,
    pins: nat,
    issued: nat,
    closed: nat,
    clean: bool)

  predicate Buffered(k: Kernel, fd: int) {
    exists b :: b in k.buffers && k.buffers[b] == fd
  }

  /** `close(2)`, which always releases an open descriptor. */
  function CloseFd(k: Kernel, fd: int): (k': Kernel)
    ensures k'.paths == k.paths
  {
    if 0 <= fd && fd in k.fds && !Buffered(k, fd) then k.(fds := k.fds - {fd}, closed := k.closed + 1)
    else k.(clean := false)
  }

  function Issue(k: Kernel, fd: nat, target: nat): Kernel {
    k.(fds := k.fds[fd := target], issued := k.issued + 1)
  }

  function FreeBuffer(k: Kernel, buffer: Option<nat>): (k': Kernel)
    ensures k'.paths == k.paths
  {
    if buffer.None? then k
    else if buffer.value in k.buffers then k.(buffers := k.buffers - {buffer.value})
    else k.(clean := false)
  }

  // ---------------------------------------------------------------- layouts

  /** The casts to 32 bits on the way into `bpf_map_create`. */
  function Truncated(l: Layout): Layout {
    Layout(l.mapType, l.keySize % TWO_32, l.valueSize % TWO_32, l.maxEntries % TWO_32)
  }

  predicate Fits(l: Layout) {
    l.keySize < TWO_32 && l.valueSize < TWO_32 && l.maxEntries < TWO_32
  }

  /** The layout a fresh open asks the kernel for. */
  function Requested(kind: Kind, cpuCount: int): Layout {
    match kind
    case PlainMap(l) => Truncated(l)
    case Ring(size) => Layout(RINGBUF, 0, 0, size % TWO_32)
    case Perf(_) => Layout(PERF_EVENT_ARRAY, 4, 4, if 0 <= cpuCount then cpuCount % TWO_32 else 0)
  }

  /**
   What that is: the recorded sizes modulo 2^32, a ring of the given size without keys and values, or
   for a perf buffer one entry of four bytes each for every CPU.
   */
  lemma RequestedSaid(kind: Kind, cpuCount: int)
    ensures var l := Requested(kind, cpuCount);
            && (kind.PlainMap? ==>
                  && l.mapType == kind.layout.mapType && l.keySize == kind.layout.keySize % 0x1_0000_0000
                  && l.valueSize == kind.layout.valueSize % 0x1_0000_0000
                  && l.maxEntries == kind.layout.maxEntries % 0x1_0000_0000)
            && (kind.Ring? ==> l == Layout(27, 0, 0, kind.size % 0x1_0000_0000))
            && (kind.Perf? && 0 <= cpuCount < 0x1_0000_0000 ==> l == Layout(4, 4, 4, cpuCount))
  {
  }

  /** `load_map_info`: whether a pinned object may be adopted. */
  predicate Adoptable(kind: Kind, l: Layout) {
    match kind
    case PlainMap(recorded) => l.mapType != PERF_EVENT_ARRAY && l.mapType != RINGBUF && recorded == l
    case Ring(size) => l.mapType == RINGBUF && l.maxEntries == size
    case Perf(_) => l.mapType == PERF_EVENT_ARRAY
  }

  /** Bitwise and of unsigned integers. */
  function BitAnd(a: nat, b: nat): nat {
    if a == 0 || b == 0 then 0 else (if a % 2 == 1 && b % 2 == 1 then 1 else 0) + 2 * BitAnd(a / 2, b / 2)
  }

  /** The size test: positive, and `n & (n - 1)` is zero. */
  predicate SizeOk(n: int) {
    n > 0 && BitAnd(n, n - 1) == 0
  }

  function Pow2(k: nat): nat {
    if k == 0 then 1 else 2 * Pow2(k - 1)
  }

  lemma {:induction false} AndWithItself(n: nat)
    ensures BitAnd(n, n) == n
  {
    if n > 0 {
      AndWithItself(n / 2);
    }
  }

  lemma {:induction false} HalvedSize(n: nat)
    requires n > 1
    ensures SizeOk(n) <==> n % 2 == 0 && SizeOk(n / 2)
  {
    if n % 2 == 0 {
      assert (n - 1) / 2 == n / 2 - 1;
    } else {
      assert (n - 1) / 2 == n / 2;
      AndWithItself(n / 2);
    }
  }

  lemma {:induction false} PowersPass(k: nat)
    ensures SizeOk(Pow2(k))
  {
    if k > 0 {
      PowersPass(k - 1);
      HalvedSize(Pow2(k));
    }
  }

  lemma {:induction false} PassedIsPower(n: nat) returns (k: nat)
    requires SizeOk(n)
    ensures Pow2(k) == n
  {
    if n == 1 {
      k := 0;
    } else {
      HalvedSize(n);
      k := PassedIsPower(n / 2);
      k := k + 1;
    }
  }

  /** The mask test lets through exactly the powers of two. */
  lemma SizeOkIff(n: int)
    ensures SizeOk(n) <==> exists k: nat :: n == Pow2(k)
  {
    if SizeOk(n) {
      var k := PassedIsPower(n);
      assert n == Pow2(k);
    }
    if k: nat :| n == Pow2(k) {
      PowersPass(k);
    }
  }

  // ---------------------------------------------------------------- operations on one wrapper

  /** The fields of a wrapper; `ticket` names the `pin()` its ownership stems from. */
  datatype Handle = Handle(kind: Kind, fd: int, pinPath: string, owner: bool, buffer: Option<nat>, ticket: nat)

  predicate IsOpen(h: Handle) {
    h.fd >= 0
  }

  function Shut(h: Handle): Handle {
    h.(fd := -1, owner := false, pinPath := "")
  }

  datatype Result = Result(kernel: Kernel, handle: Handle, code: Code)

  /** A closed wrapper is told so; an open one always ends up closed, whatever `close(2)` reports. */
  function AfterClose(k: Kernel, h: Handle, closeOk: bool): (r: Result)
    ensures r.kernel.paths == k.paths
  {
    var freed := FreeBuffer(k, h.buffer);
    var bare := h.(buffer := None);
    if !IsOpen(h) then Result(freed, bare, NotOpenedError)
    else Result(CloseFd(freed, h.fd), Shut(bare), if closeOk then NoError else CloseError)
  }

  function AfterPin(k: Kernel, h: Handle, path: string, statOk: bool, pinOk: bool): Result {
    if IsOpen(h) && h.fd in k.fds && !h.owner && statOk && path !in k.paths && pinOk then
      Result(k.(paths := k.paths[path := k.fds[h.fd]], pins := k.pins + 1, tickets := k.tickets[path := k.pins + 1]),
             h.(pinPath := path, owner := true, ticket := k.pins + 1),
             NoError)
    else
      Result(k, h,
             if !IsOpen(h) then NotOpenedError
             else if h.owner then AlreadyOwnsPinError
             else if statOk && path in k.paths then AlreadyPinnedError
             else PinningError)
  }

  /** Ownership comes back only when the path exists and could not be removed. */
  function AfterUnpin(k: Kernel, h: Handle, statOk: bool, removeOk: bool): Result {
    if !IsOpen(h) then Result(k, h, NotOpenedError)
    else if !h.owner then Result(k, h, InvalidUnpinError)
    else
      var dropped := h.(owner := false, pinPath := "");
      if !statOk then Result(k, dropped, UnpinningError)
      else if h.pinPath !in k.paths then Result(k, dropped, NotPinnedError)
      else if !removeOk then Result(k, h, UnpinningError)
      else Result(k.(paths := k.paths - {h.pinPath}), dropped, NoError)
  }

  /** Outcomes of the calls an open makes: `reply` is the descriptor or a negative error. */
  datatype OpenCalls = OpenCalls(initOk: bool, statOk: bool, reply: int, infoOk: bool, target: nat, cpuCount: int)

  function AfterOpen(k: Kernel, h: Handle, pinned: bool, path: string, c: OpenCalls): (r: Result)
    ensures r.kernel.paths == k.paths
  {
    if !c.initOk then Result(k, h, BpfRuntimeInitError)
    else if IsOpen(h) then Result(k, h, AlreadyOpenedError)
    else if pinned then AfterAdopt(k, h, path, c)
    else AfterCreate(k, h, c)
  }

  function AfterAdopt(k: Kernel, h: Handle, path: string, c: OpenCalls): (r: Result)
    ensures r.kernel.paths == k.paths
  {
    if !c.statOk || path !in k.paths then Result(k, if h.kind.PlainMap? then h.(fd := -1) else h, NotPinnedError)
    else if c.reply < 0 then Result(k, h.(fd := if h.kind.PlainMap? then -1 else c.reply), OpenError)
    else
      var issued := Issue(k, c.reply, k.paths[path]);
      var held := h.(fd := c.reply);
      var known := k.paths[path] in k.layouts;
      if !c.infoOk || !known then AfterClose(issued, held, true).(code := OpenError)
      else if !Adoptable(h.kind, k.layouts[k.paths[path]])
      then AfterClose(issued, held, true).(code := PinnedMapMismatchError)
      else Result(issued, held.(pinPath := path), NoError)
  }

  function AfterCreate(k: Kernel, h: Handle, c: OpenCalls): (r: Result)
    ensures r.kernel.paths == k.paths
  {
    if h.kind.Perf? && c.cpuCount <= 0 then Result(k, h, PerfFailedToGetCpuCountError)
    else if h.kind.Perf? && !SizeOk(h.kind.pages) then Result(k, h, InvalidPerfPageSizeError)
    else if h.kind.Ring? && !SizeOk(h.kind.size) then Result(k, h, InvalidRingBufferSizeError)
    else if c.reply < 0 then Result(k, h.(fd := -1), OpenError)
    else
      Result(Issue(k.(layouts := k.layouts[c.target := Requested(h.kind, c.cpuCount)]), c.reply, c.target),
             h.(fd := c.reply), NoError)
  }

  /** The new buffer is made before the old one is freed; a failure leaves the map open without a buffer. */
  function AfterBuffer(k: Kernel, h: Handle, callbacks: bool, made: Option<nat>): (r: Result)
    ensures r.kernel.paths == k.paths && r.kernel.fds == k.fds && r.handle.fd == h.fd
  {
    if !IsOpen(h) then Result(k, h, NotOpenedError)
    else if !callbacks then Result(k, h, CallbackNotSetError)
    else
      var grown := if made.Some? then k.(buffers := k.buffers[made.value := h.fd as nat]) else k;
      Result(FreeBuffer(grown, h.buffer), h.(buffer := made), if made.Some? then NoError else BufferMakeError)
  }

  /** What a move leaves in its source. */
  function MovedFrom(h: Handle): Handle {
    Shut(h).(buffer := None)
  }

  /** Move assignment: the target closes what it had and takes over everything else. */
  function AfterTake(k: Kernel, target: Handle, source: Handle): (Kernel, Handle) {
    var closed := if IsOpen(target) then AfterClose(k, target, true).kernel else FreeBuffer(k, target.buffer);
    (closed, source)
  }

  function AfterDestroy(k: Kernel, h: Handle): Kernel {
    if IsOpen(h) then CloseFd(FreeBuffer(k, h.buffer), h.fd) else FreeBuffer(k, h.buffer)
  }

  // ---------------------------------------------------------------- the wrapper class

  class Wrapper {
    var kind: Kind
    var fd: int
    var pinPath: string
    var owner: bool
    var buffer: Option<nat>
    var ticket: nat

    function Value(): Handle
      reads this
    {
      Handle(kind, fd, pinPath, owner, buffer, ticket)
    }

    constructor (kind: Kind)
      ensures !IsOpen(Value()) && !owner && buffer.None? && Value().kind == kind
      ensures Value() == Handle(kind, -1, "", false, None, 0)
    {
      this.kind, fd, pinPath, owner, buffer, ticket := kind, -1, "", false, None, 0;
    }

    /** The move constructor. */
    constructor Moved(other: Wrapper)
      modifies other
      ensures Value() == old(other.Value()) && other.Value() == MovedFrom(old(other.Value()))
    {
      kind, fd, pinPath, owner, buffer, ticket :=
        other.kind, other.fd, other.pinPath, other.owner, other.buffer, other.ticket;
      new;
      other.fd := -1;
      other.pinPath := "";
      other.owner := false;
      other.buffer := None;
    }

    method Close(k: Kernel, closeOk: bool) returns (k': Kernel, code: Code)
      modifies this
      ensures Result(k', Value(), code) == AfterClose(k, old(Value()), closeOk)
      ensures !IsOpen(Value()) && buffer.None? && k'.paths == k.paths
      ensures code == if old(fd) < 0 then NotOpenedError else if closeOk then NoError else CloseError
      ensures old(owner ==> fd >= 0) ==> !owner
    {
      k' := FreeBuffer(k, buffer);
      buffer := None;
      if fd < 0 {
        return k', NotOpenedError;
      }
      code := NoError;
      k' := CloseFd(k', fd);
      if !closeOk {
        code := CloseError;
      }
      owner := false;
      pinPath := "";
      fd := -1;
    }

    method Pin(k: Kernel, path: string, statOk: bool, pinOk: bool) returns (k': Kernel, code: Code)
      modifies this
      ensures Result(k', Value(), code) == AfterPin(k, old(Value()), path, statOk, pinOk)
      ensures code == NoError <==> owner && !old(owner)
      ensures code == NotOpenedError <==> fd < 0
      ensures code == AlreadyOwnsPinError <==> fd >= 0 && old(owner)
      ensures code == AlreadyPinnedError <==> fd >= 0 && !old(owner) && statOk && path in k.paths
      ensures code == NoError ==> pinPath == path && path !in k.paths && k'.paths == k.paths[path := k.fds[fd]]
      ensures fd == old(fd)
      ensures code != NoError ==> k' == k && Value() == old(Value())
    {
      k' := k;
      if fd < 0 {
        return k', NotOpenedError;
      }
      if owner {
        return k', AlreadyOwnsPinError;
      }
      if statOk && path in k.paths {
        return k', AlreadyPinnedError;
      }
      if !statOk {
        return k', PinningError;
      }
      if !pinOk || fd !in k.fds {
        return k', PinningError;
      }
      k' := k.(paths := k.paths[path := k.fds[fd]], pins := k.pins + 1, tickets := k.tickets[path := k.pins + 1]);
      pinPath := path;
      owner := true;
      ticket := k'.pins;
      code := NoError;
    }

    method Unpin(k: Kernel, statOk: bool, removeOk: bool) returns (k': Kernel, code: Code)
      modifies this
      ensures Result(k', Value(), code) == AfterUnpin(k, old(Value()), statOk, removeOk)
      ensures code == NotOpenedError <==> fd < 0
      ensures code == InvalidUnpinError <==> fd >= 0 && !old(owner)
      ensures code == NotPinnedError <==> fd >= 0 && old(owner) && statOk && old(pinPath) !in k.paths
      ensures code == NoError <==> fd >= 0 && old(owner) && statOk && old(pinPath) in k.paths && removeOk
      ensures k'.paths == if code == NoError then k.paths - {old(pinPath)} else k.paths
      ensures k'.fds == k.fds && fd == old(fd)
      ensures owner <==> old(owner) && (old(fd) < 0 || (code == UnpinningError && statOk))
    {
      k' := k;
      if fd < 0 {
        return k', NotOpenedError;
      }
      if !owner {
        return k', InvalidUnpinError;
      }
      owner := false;
      if statOk && pinPath in k.paths {
        if !removeOk {
          owner := true;
          return k', UnpinningError;
        }
        k' := k.(paths := k.paths - {pinPath});
        pinPath := "";
        return k', NoError;
      }
      pinPath := "";
      code := if !statOk then UnpinningError else NotPinnedError;
    }

    /** `open` of all three wrappers, pinned or fresh. */
    method Open(k: Kernel, pinned: bool, path: string, c: OpenCalls) returns (k': Kernel, code: Code)
      modifies this
      ensures Result(k', Value(), code) == AfterOpen(k, old(Value()), pinned, path, c)
      ensures k'.paths == k.paths
      ensures code == NoError <==> old(fd) < 0 <= fd
      ensures code == BpfRuntimeInitError <==> !c.initOk
      ensures code == AlreadyOpenedError <==> c.initOk && old(fd) >= 0
      ensures code == NotPinnedError <==> c.initOk && old(fd) < 0 && pinned && (!c.statOk || path !in k.paths)
    {
      k' := k;
      if !c.initOk {
        return k', BpfRuntimeInitError;
      }
      if fd >= 0 {
        return k', AlreadyOpenedError;
      }
      if pinned {
        if !c.statOk || path !in k.paths {
          if kind.PlainMap? {
            fd := -1;
          }
          return k', NotPinnedError;
        }
        fd := c.reply;
        if fd < 0 {
          if kind.PlainMap? {
            fd := -1;
          }
          return k', OpenError;
        }
        k' := Issue(k, c.reply, k.paths[path]);
        if !c.infoOk || k.paths[path] !in k.layouts {
          k', code := Close(k', true);
          return k', OpenError;
        }
        if !Adoptable(kind, k.layouts[k.paths[path]]) {
          k', code := Close(k', true);
          return k', PinnedMapMismatchError;
        }
        pinPath := path;
        return k', NoError;
      }
      k', code := Create(k, c);
    }

    /** The checks before a map is created: which sizes pass, and what is said of those that do not. */
    method CheckSizes(cpuCount: int) returns (code: Code)
      ensures code == PerfFailedToGetCpuCountError <==> kind.Perf? && cpuCount <= 0
      ensures code == InvalidPerfPageSizeError <==>
                kind.Perf? && cpuCount > 0 && !exists n: nat :: kind.pages == Pow2(n)
      ensures code == InvalidRingBufferSizeError <==> kind.Ring? && !exists n: nat :: kind.size == Pow2(n)
      ensures code == NoError <==>
                && (kind.Perf? ==> cpuCount > 0 && exists n: nat :: kind.pages == Pow2(n))
                && (kind.Ring? ==> exists n: nat :: kind.size == Pow2(n))
      ensures code == NoError <==> !(kind.Perf? && cpuCount <= 0) && !(kind.Perf? && !SizeOk(kind.pages))
                                   && !(kind.Ring? && !SizeOk(kind.size))
    {
      SizeOkIff(if kind.Perf? then kind.pages else if kind.Ring? then kind.size else 1);
      code := NoError;
      if kind.Perf? {
        if cpuCount <= 0 {
          return PerfFailedToGetCpuCountError;
        }
        if !SizeOk(kind.pages) {
          return InvalidPerfPageSizeError;
        }
      }
      if kind.Ring? && !SizeOk(kind.size) {
        return InvalidRingBufferSizeError;
      }
    }

    method Create(k: Kernel, c: OpenCalls) returns (k': Kernel, code: Code)
      modifies this`fd
      ensures Result(k', Value(), code) == AfterCreate(k, old(Value()), c)
      ensures old(fd) < 0 ==> (code == NoError <==> fd >= 0)
      ensures code == NoError ==> k'.fds == k.fds[fd := c.target]
      ensures code == NoError ==> k'.layouts == k.layouts[c.target := Requested(kind, c.cpuCount)]
      ensures code != NoError ==> k' == k
    {
      k' := k;
      code := CheckSizes(c.cpuCount);
      if code != NoError {
        return;
      }
      fd := c.reply;
      if fd < 0 {
        fd := -1;
        return k', OpenError;
      }
      k' := k.(layouts := k.layouts[c.target := Requested(kind, c.cpuCount)]);
      k' := Issue(k', c.reply, c.target);
      code := NoError;
    }

    /** `event_buffer_create` of the ring and perf wrappers. */
    method CreateBuffer(k: Kernel, callbacks: bool, made: Option<nat>) returns (k': Kernel, code: Code)
      modifies this`buffer
      ensures Result(k', Value(), code) == AfterBuffer(k, old(Value()), callbacks, made)
      ensures k'.fds == k.fds && k'.paths == k.paths
      ensures code == NoError <==> fd >= 0 && callbacks && made.Some?
      ensures fd >= 0 && callbacks ==> buffer == made
      ensures fd < 0 || !callbacks ==> k' == k && buffer == old(buffer)
    {
      k' := k;
      if fd < 0 {
        return k', NotOpenedError;
      }
      if !callbacks {
        return k', CallbackNotSetError;
      }
      if made.Some? {
        k' := k'.(buffers := k'.buffers[made.value := fd]);
      }
      k' := FreeBuffer(k', buffer);
      buffer := made;
      code := if buffer.None? then BufferMakeError else NoError;
    }

    /** Move assignment; assigning a wrapper to itself changes nothing. */
    method Take(k: Kernel, other: Wrapper) returns (k': Kernel)
      modifies this, other
      ensures other == this ==> k' == k && Value() == old(Value())
      ensures other != this ==> (k', Value()) == AfterTake(k, old(Value()), old(other.Value()))
                                && other.Value() == MovedFrom(old(other.Value()))
    {
      k' := k;
      if other == this {
        return;
      }
      if fd >= 0 {
        var code;
        k', code := Close(k', true);
      }
      fd, pinPath, owner, ticket := other.fd, other.pinPath, other.owner, other.ticket;
      other.fd := -1;
      other.pinPath := "";
      other.owner := false;
      kind := other.kind;
      k' := FreeBuffer(k', buffer);
      buffer := other.buffer;
      other.buffer := None;
    }
  }
}
