/**
 Many wrappers over one kernel, through every sequence of constructions, opens, pins, unpins,
 closes, buffer creations, moves and destructions: descriptors are conserved, buffers live inside
 the lifetime of their descriptor, pins have one owner, and recorded layouts stay true.
 */
module WrapperRuns {
  import opened Basics
  import opened MapWrappers

  datatype World = World(kernel: Kernel, wrappers: map<nat, Handle>)

  datatype Event =
    | Construct(id: nat, kind: Kind)
    | Open(id: nat, pinned: bool, path: string, calls: OpenCalls)
    | Pin(id: nat, path: string, statOk: bool, pinOk: bool)
    | Unpin(id: nat, statOk: bool, removeOk: bool)
    | Close(id: nat, closeOk: bool)
    | CreateBuffer(id: nat, callbacks: bool, made: Option<nat>)
    | MoveConstruct(id: nat, source: nat)
    | MoveAssign(id: nat, source: nat)
    | Destroy(id: nat)

  predicate SameClass(a: Kind, b: Kind) {
    (a.PlainMap? <==> b.PlainMap?) && (a.Ring? <==> b.Ring?)
  }

  /** The kernel hands out descriptors, objects and buffers that are not in use. */
  predicate Enabled(w: World, e: Event) {
    match e
    case Construct(id, _) => id !in w.wrappers
    case Open(id, _, _, c) =>
      id in w.wrappers && (0 <= c.reply ==> c.reply !in w.kernel.fds) && c.target !in w.kernel.layouts
    case Pin(id, _, _, _) => id in w.wrappers
    case Unpin(id, _, _) => id in w.wrappers
    case Close(id, _) => id in w.wrappers
    case CreateBuffer(id, _, made) =>
      id in w.wrappers && !w.wrappers[id].kind.PlainMap? && (made.Some? ==> made.value !in w.kernel.buffers)
    case MoveConstruct(id, source) => id !in w.wrappers && source in w.wrappers
    case MoveAssign(id, source) =>
      id in w.wrappers && source in w.wrappers && SameClass(w.wrappers[id].kind, w.wrappers[source].kind)
    case Destroy(id) => id in w.wrappers
  }

  function With(w: World, id: nat, r: Result): World {
    World(r.kernel, w.wrappers[id := r.handle])
  }

  function Step(w: World, e: Event): World
    requires Enabled(w, e)
  {
    match e
    case Construct(id, kind) => w.(wrappers := w.wrappers[id := Handle(kind, -1, "", false, None, 0)])
    case Open(id, pinned, path, c) => With(w, id, AfterOpen(w.kernel, w.wrappers[id], pinned, path, c))
    case Pin(id, path, statOk, pinOk) => With(w, id, AfterPin(w.kernel, w.wrappers[id], path, statOk, pinOk))
    case Unpin(id, statOk, removeOk) => With(w, id, AfterUnpin(w.kernel, w.wrappers[id], statOk, removeOk))
    case Close(id, closeOk) => With(w, id, AfterClose(w.kernel, w.wrappers[id], closeOk))
    case CreateBuffer(id, callbacks, made) => With(w, id, AfterBuffer(w.kernel, w.wrappers[id], callbacks, made))
    case MoveConstruct(id, source) =>
      w.(wrappers := w.wrappers[id := w.wrappers[source]][source := MovedFrom(w.wrappers[source])])
    case MoveAssign(id, source) =>
      if id == source then w
      else
        var (k, h) := AfterTake(w.kernel, w.wrappers[id], w.wrappers[source]);
        World(k, w.wrappers[id := h][source := MovedFrom(w.wrappers[source])])
    case Destroy(id) => World(AfterDestroy(w.kernel, w.wrappers[id]), w.wrappers - {id})
  }

  predicate IsRun(w: World, events: seq<Event>)
    decreases |events|
  {
    events == [] || (Enabled(w, events[0]) && IsRun(Step(w, events[0]), events[1..]))
  }

  function Final(w: World, events: seq<Event>): World
    requires IsRun(w, events)
    decreases |events|
  {
    if events == [] then w else Final(Step(w, events[0]), events[1..])
  }

  /** Before the first wrapper: bpffs may already hold pins of earlier processes. */
  predicate Init(w: World) {
    && w.wrappers == map[] && w.kernel.fds == map[] && w.kernel.buffers == map[]
    && w.kernel.issued == w.kernel.closed == 0 && w.kernel.clean
    && (forall path :: path in w.kernel.paths ==> w.kernel.paths[path] in w.kernel.layouts)
    && (forall o :: o in w.kernel.layouts ==> Fits(w.kernel.layouts[o]))
  }

  // ---------------------------------------------------------------- invariant

  /** The wrapper's recorded layout and the kernel's, up to the casts to 32 bits. */
  predicate Agrees(kind: Kind, l: Layout) {
    match kind
    case PlainMap(recorded) => l == Truncated(recorded)
    case Ring(size) => l.mapType == RINGBUF && l.maxEntries == size % TWO_32
    case Perf(_) => l.mapType == PERF_EVENT_ARRAY
  }

  predicate Backed(k: Kernel, h: Handle) {
    && (IsOpen(h) ==> h.fd in k.fds && k.fds[h.fd] in k.layouts && Agrees(h.kind, k.layouts[k.fds[h.fd]]))
    && (h.owner ==> IsOpen(h) && h.fd in k.fds && h.pinPath in k.paths && k.paths[h.pinPath] == k.fds[h.fd]
                    && h.pinPath in k.tickets && k.tickets[h.pinPath] == h.ticket)
    && (h.buffer.Some? ==>
          IsOpen(h) && !h.kind.PlainMap? && h.buffer.value in k.buffers && k.buffers[h.buffer.value] == h.fd)
  }

  predicate Apart(g: Handle, h: Handle) {
    && (IsOpen(g) ==> g.fd != h.fd)
    && (g.buffer.Some? ==> g.buffer != h.buffer)
    && (g.owner && h.owner ==> g.pinPath != h.pinPath)
  }

  predicate FdHeld(w: World, fd: nat) {
    exists id :: id in w.wrappers && w.wrappers[id].fd == fd
  }

  predicate BufferHeld(w: World, buffer: nat) {
    exists id :: id in w.wrappers && w.wrappers[id].buffer == Some(buffer)
  }

  /** No call was misused, descriptors add up, and kernel layouts have 32-bit sizes. */
  predicate Accounts(k: Kernel) {
    && k.clean && k.issued == k.closed + |k.fds|
    && (forall path :: path in k.paths ==> k.paths[path] in k.layouts)
    && (forall o :: o in k.layouts ==> Fits(k.layouts[o]))
  }

  predicate Sound(w: World) {
    && Accounts(w.kernel)
    && (forall id :: id in w.wrappers ==> Backed(w.kernel, w.wrappers[id]))
    && (forall i, j :: i in w.wrappers && j in w.wrappers && i != j ==> Apart(w.wrappers[i], w.wrappers[j]))
  }

  predicate Held(w: World) {
    && (forall fd :: fd in w.kernel.fds ==> FdHeld(w, fd))
    && (forall b :: b in w.kernel.buffers ==> BufferHeld(w, b))
  }

  predicate Inv(w: World) {
    Sound(w) && Held(w)
  }

  // ---------------------------------------------------------------- one wrapper changes

  /** Nothing changed in the kernel but what the wrapper `h` held. */
  predicate Frame(k: Kernel, k': Kernel, h: Handle) {
    && (forall fd :: fd in k.fds && fd != h.fd ==> fd in k'.fds && k'.fds[fd] == k.fds[fd])
    && (forall o :: o in k.layouts ==> o in k'.layouts && k'.layouts[o] == k.layouts[o])
    && (forall path :: path in k.paths && !(h.owner && path == h.pinPath) ==>
                         && path in k'.paths && k'.paths[path] == k.paths[path]
                         && (path in k.tickets ==> path in k'.tickets && k'.tickets[path] == k.tickets[path]))
    && (forall b :: b in k.buffers && Some(b) != h.buffer ==> b in k'.buffers && k'.buffers[b] == k.buffers[b])
  }

  lemma FrameBacks(k: Kernel, k': Kernel, h: Handle, g: Handle)
    requires Frame(k, k', h) && Apart(g, h) && Apart(h, g) && Backed(k, g)
    ensures Backed(k', g)
  {
  }

  /** What is new in the kernel is held by the changed wrapper. */
  predicate NewIsHeld(k: Kernel, k': Kernel, h: Handle, h': Handle) {
    && (forall fd :: fd in k'.fds ==> fd == h'.fd || (fd in k.fds && fd != h.fd))
    && (forall b :: b in k'.buffers ==> Some(b) == h'.buffer || (b in k.buffers && Some(b) != h.buffer))
  }

  predicate ApartFromOthers(w: World, id: nat, h: Handle) {
    forall j :: j in w.wrappers && j != id ==> Apart(h, w.wrappers[j]) && Apart(w.wrappers[j], h)
  }

  /** An operation of one wrapper that cannot disturb the others. */
  predicate LocalChange(w: World, id: nat, k': Kernel, h': Handle)
    requires id in w.wrappers
  {
    && Accounts(k') && Backed(k', h') && ApartFromOthers(w, id, h')
    && Frame(w.kernel, k', w.wrappers[id]) && NewIsHeld(w.kernel, k', w.wrappers[id], h')
  }

  lemma ChangeOne(w: World, id: nat, k': Kernel, h': Handle)
    requires Inv(w) && id in w.wrappers && LocalChange(w, id, k', h')
    ensures Inv(World(k', w.wrappers[id := h']))
  {
    ChangeOneSound(w, id, k', h');
    StillHeld(w, World(k', w.wrappers[id := h']), id, id);
  }

  lemma ChangeOneSound(w: World, id: nat, k': Kernel, h': Handle)
    requires Sound(w) && id in w.wrappers
    requires Accounts(k') && Backed(k', h') && ApartFromOthers(w, id, h')
    requires Frame(w.kernel, k', w.wrappers[id])
    ensures Sound(World(k', w.wrappers[id := h']))
  {
    var h := w.wrappers[id];
    var next := World(k', w.wrappers[id := h']);
    forall j | j in next.wrappers
      ensures Backed(k', next.wrappers[j])
    {
      if j != id {
        assert Apart(w.wrappers[j], h) && Apart(h, w.wrappers[j]);
        FrameBacks(w.kernel, k', h, w.wrappers[j]);
      }
    }
  }

  /** What the wrapper at `from` held is now held at `to`, or gone; the others keep what they had. */
  lemma StillHeld(w: World, next: World, from: nat, to: nat)
    requires Held(w) && from in w.wrappers
    requires forall j :: j in w.wrappers && j != from ==>
               && j in next.wrappers && next.wrappers[j].fd == w.wrappers[j].fd
               && next.wrappers[j].buffer == w.wrappers[j].buffer
    requires forall fd :: fd in next.kernel.fds ==>
               (to in next.wrappers && fd == next.wrappers[to].fd) || (fd in w.kernel.fds && fd != w.wrappers[from].fd)
    requires forall b :: b in next.kernel.buffers ==>
               || (to in next.wrappers && Some(b) == next.wrappers[to].buffer)
               || (b in w.kernel.buffers && Some(b) != w.wrappers[from].buffer)
    ensures Held(next)
  {
    forall fd | fd in next.kernel.fds
      ensures FdHeld(next, fd)
    {
      if to in next.wrappers && fd == next.wrappers[to].fd {
      } else {
        assert FdHeld(w, fd);
        var j :| j in w.wrappers && w.wrappers[j].fd == fd;
        assert next.wrappers[j].fd == fd;
      }
    }
    forall b | b in next.kernel.buffers
      ensures BufferHeld(next, b)
    {
      if to in next.wrappers && Some(b) == next.wrappers[to].buffer {
      } else {
        assert BufferHeld(w, b);
        var j :| j in w.wrappers && w.wrappers[j].buffer == Some(b);
        assert next.wrappers[j].buffer == Some(b);
      }
    }
  }

  /** A wrapper that holds nothing. */
  predicate Empty(h: Handle) {
    !IsOpen(h) && !h.owner && h.buffer.None?
  }

  lemma AddEmpty(w: World, id: nat, h: Handle)
    requires Inv(w) && id !in w.wrappers && Empty(h)
    ensures Inv(w.(wrappers := w.wrappers[id := h]))
  {
    AddEmptySound(w, id, h);
    HeldByMore(w, w.(wrappers := w.wrappers[id := h]));
  }

  lemma AddEmptySound(w: World, id: nat, h: Handle)
    requires Sound(w) && id !in w.wrappers && Empty(h)
    ensures Sound(w.(wrappers := w.wrappers[id := h]))
  {
  }

  lemma HeldByMore(w: World, next: World)
    requires Held(w) && next.kernel == w.kernel
    requires forall j :: j in w.wrappers ==> j in next.wrappers && next.wrappers[j] == w.wrappers[j]
    ensures Held(next)
  {
    forall fd | fd in next.kernel.fds
      ensures FdHeld(next, fd)
    {
      assert FdHeld(w, fd);
      var j :| j in w.wrappers && w.wrappers[j].fd == fd;
      assert next.wrappers[j].fd == fd;
    }
    forall b | b in next.kernel.buffers
      ensures BufferHeld(next, b)
    {
      assert BufferHeld(w, b);
      var j :| j in w.wrappers && w.wrappers[j].buffer == Some(b);
      assert next.wrappers[j].buffer == Some(b);
    }
  }

  lemma DropEmpty(w: World, id: nat)
    requires Inv(w) && id in w.wrappers && Empty(w.wrappers[id])
    ensures Inv(w.(wrappers := w.wrappers - {id}))
  {
    var next := w.(wrappers := w.wrappers - {id});
    FewerStaySound(w, next);
    StillHeld(w, next, id, id);
  }

  lemma FewerStaySound(w: World, next: World)
    requires Sound(w) && next.kernel == w.kernel
    requires forall j :: j in next.wrappers ==> j in w.wrappers && next.wrappers[j] == w.wrappers[j]
    ensures Sound(next)
  {
  }

  /** A move hands everything over: descriptor, buffer, path and the ticket that goes with it. */
  lemma MoveOver(w: World, id: nat, source: nat)
    requires Inv(w) && source in w.wrappers && id != source
    requires id in w.wrappers ==> Empty(w.wrappers[id])
    ensures Inv(w.(wrappers := w.wrappers[id := w.wrappers[source]][source := MovedFrom(w.wrappers[source])]))
  {
    var h := w.wrappers[source];
    var next := w.(wrappers := w.wrappers[id := h][source := MovedFrom(h)]);
    MoveOverSound(w, next, id, source);
    MoveOverHeld(w, next, id, source);
  }

  lemma MoveOverHeld(w: World, next: World, id: nat, source: nat)
    requires Held(w) && source in w.wrappers && id != source && next.kernel == w.kernel
    requires id in w.wrappers ==> Empty(w.wrappers[id])
    requires next.wrappers == w.wrappers[id := w.wrappers[source]][source := MovedFrom(w.wrappers[source])]
    ensures Held(next)
  {
    forall fd | fd in next.kernel.fds
      ensures FdHeld(next, fd)
    {
      assert FdHeld(w, fd);
      var j :| j in w.wrappers && w.wrappers[j].fd == fd;
      assert next.wrappers[if j == source then id else j].fd == fd;
    }
    forall b | b in next.kernel.buffers
      ensures BufferHeld(next, b)
    {
      assert BufferHeld(w, b);
      var j :| j in w.wrappers && w.wrappers[j].buffer == Some(b);
      assert next.wrappers[if j == source then id else j].buffer == Some(b);
    }
  }

  lemma MoveOverSound(w: World, next: World, id: nat, source: nat)
    requires Sound(w) && source in w.wrappers && id != source && next.kernel == w.kernel
    requires next.wrappers == w.wrappers[id := w.wrappers[source]][source := MovedFrom(w.wrappers[source])]
    ensures Sound(next)
  {
    var h := w.wrappers[source];
    forall i, j | i in next.wrappers && j in next.wrappers && i != j
      ensures Apart(next.wrappers[i], next.wrappers[j])
    {
      if i == id && j != source {
        assert Apart(h, w.wrappers[j]);
      } else if j == id && i != source {
        assert Apart(w.wrappers[i], h);
      }
    }
  }

  // ---------------------------------------------------------------- operations

  lemma ClosingKeepsAccounts(k: Kernel, fd: nat)
    requires Accounts(k) && fd in k.fds && !Buffered(k, fd)
    ensures Accounts(CloseFd(k, fd))
  {
    assert k.fds.Keys == CloseFd(k, fd).fds.Keys + {fd};
  }

  lemma IssuingKeepsAccounts(k: Kernel, fd: nat, target: nat)
    requires Accounts(k) && fd !in k.fds
    ensures Accounts(Issue(k, fd, target))
  {
    assert Issue(k, fd, target).fds.Keys == k.fds.Keys + {fd};
  }

  /** Freeing its one buffer leaves a wrapper's descriptor without any: no other wrapper reads from it. */
  lemma OneBufferPerDescriptor(w: World, id: nat)
    requires Inv(w) && id in w.wrappers && IsOpen(w.wrappers[id])
    ensures !Buffered(FreeBuffer(w.kernel, w.wrappers[id].buffer), w.wrappers[id].fd)
  {
    var h := w.wrappers[id];
    var freed := FreeBuffer(w.kernel, h.buffer);
    forall b | b in freed.buffers
      ensures freed.buffers[b] != h.fd
    {
      assert b in w.kernel.buffers && BufferHeld(w, b);
      var j :| j in w.wrappers && w.wrappers[j].buffer == Some(b);
      assert Backed(w.kernel, w.wrappers[j]);
      assert j != id ==> Apart(w.wrappers[j], h);
    }
  }

  lemma CloseIsLocal(w: World, id: nat, closeOk: bool)
    requires Sound(w) && id in w.wrappers
    requires IsOpen(w.wrappers[id]) ==> !Buffered(FreeBuffer(w.kernel, w.wrappers[id].buffer), w.wrappers[id].fd)
    ensures var r := AfterClose(w.kernel, w.wrappers[id], closeOk);
            LocalChange(w, id, r.kernel, r.handle) && Empty(r.handle)
  {
    var h := w.wrappers[id];
    assert Backed(w.kernel, h);
    if IsOpen(h) {
      ClosingKeepsAccounts(FreeBuffer(w.kernel, h.buffer), h.fd);
    }
  }

  lemma InvClose(w: World, id: nat, closeOk: bool)
    requires Inv(w) && id in w.wrappers
    ensures Inv(With(w, id, AfterClose(w.kernel, w.wrappers[id], closeOk)))
    ensures Empty(AfterClose(w.kernel, w.wrappers[id], closeOk).handle)
  {
    if IsOpen(w.wrappers[id]) {
      OneBufferPerDescriptor(w, id);
    }
    CloseIsLocal(w, id, closeOk);
    var r := AfterClose(w.kernel, w.wrappers[id], closeOk);
    ChangeOne(w, id, r.kernel, r.handle);
  }

  lemma PinIsLocal(w: World, id: nat, path: string, statOk: bool, pinOk: bool)
    requires Sound(w) && id in w.wrappers
    ensures var r := AfterPin(w.kernel, w.wrappers[id], path, statOk, pinOk);
            LocalChange(w, id, r.kernel, r.handle)
  {
    var h := w.wrappers[id];
    var r := AfterPin(w.kernel, h, path, statOk, pinOk);
    assert Backed(w.kernel, h);
    forall j | j in w.wrappers && j != id
      ensures Apart(r.handle, w.wrappers[j]) && Apart(w.wrappers[j], r.handle)
    {
      assert Apart(h, w.wrappers[j]) && Apart(w.wrappers[j], h) && Backed(w.kernel, w.wrappers[j]);
    }
  }

  lemma UnpinIsLocal(w: World, id: nat, statOk: bool, removeOk: bool)
    requires Sound(w) && id in w.wrappers
    ensures var r := AfterUnpin(w.kernel, w.wrappers[id], statOk, removeOk);
            LocalChange(w, id, r.kernel, r.handle)
  {
    assert Backed(w.kernel, w.wrappers[id]);
  }

  lemma BufferIsLocal(w: World, id: nat, callbacks: bool, made: Option<nat>)
    requires Sound(w) && Enabled(w, CreateBuffer(id, callbacks, made))
    ensures var r := AfterBuffer(w.kernel, w.wrappers[id], callbacks, made);
            LocalChange(w, id, r.kernel, r.handle)
  {
    var h := w.wrappers[id];
    var r := AfterBuffer(w.kernel, h, callbacks, made);
    assert Backed(w.kernel, h);
    forall j | j in w.wrappers && j != id
      ensures Apart(r.handle, w.wrappers[j]) && Apart(w.wrappers[j], r.handle)
    {
      assert Apart(h, w.wrappers[j]) && Apart(w.wrappers[j], h) && Backed(w.kernel, w.wrappers[j]);
    }
  }

  lemma OpenedApart(w: World, id: nat, h': Handle)
    requires Sound(w) && id in w.wrappers && Empty(w.wrappers[id])
    requires h' == w.wrappers[id].(fd := h'.fd, pinPath := h'.pinPath)
    requires h'.fd < 0 || h'.fd !in w.kernel.fds
    ensures ApartFromOthers(w, id, h')
  {
    forall j | j in w.wrappers && j != id
      ensures Apart(h', w.wrappers[j]) && Apart(w.wrappers[j], h')
    {
      assert Backed(w.kernel, w.wrappers[j]);
    }
  }

  lemma RequestedAgrees(kind: Kind, cpuCount: int)
    ensures Fits(Requested(kind, cpuCount)) && Agrees(kind, Requested(kind, cpuCount))
  {
  }

  lemma CreateIsLocal(w: World, id: nat, c: OpenCalls)
    requires Sound(w) && Enabled(w, Open(id, false, "", c)) && !IsOpen(w.wrappers[id])
    ensures var r := AfterCreate(w.kernel, w.wrappers[id], c);
            LocalChange(w, id, r.kernel, r.handle)
  {
    var h := w.wrappers[id];
    var r := AfterCreate(w.kernel, h, c);
    assert Backed(w.kernel, h);
    OpenedApart(w, id, r.handle);
    assert !IsOpen(r.handle) ==> r.kernel == w.kernel;
    if IsOpen(r.handle) {
      assert r.code == NoError && r.handle == h.(fd := c.reply);
      var grown := w.kernel.(layouts := w.kernel.layouts[c.target := Requested(h.kind, c.cpuCount)]);
      RequestedAgrees(h.kind, c.cpuCount);
      IssuingKeepsAccounts(grown, c.reply, c.target);
    }
  }

  /** Adoption either keeps the issued descriptor or closes it at once. */
  lemma AdoptIsLocal(w: World, id: nat, path: string, c: OpenCalls)
    requires Sound(w) && Enabled(w, Open(id, true, path, c)) && !IsOpen(w.wrappers[id])
    requires 0 <= c.reply ==> !Buffered(w.kernel, c.reply)
    ensures var r := AfterAdopt(w.kernel, w.wrappers[id], path, c);
            LocalChange(w, id, r.kernel, r.handle)
  {
    var h := w.wrappers[id];
    var r := AfterAdopt(w.kernel, h, path, c);
    assert Backed(w.kernel, h);
    OpenedApart(w, id, r.handle);
    if c.statOk && path in w.kernel.paths && c.reply >= 0 {
      IssuingKeepsAccounts(w.kernel, c.reply, w.kernel.paths[path]);
      if r.code != NoError {
        ReleasedAtOnce(w.kernel, h, c.reply, w.kernel.paths[path]);
      }
    }
  }

  /** A descriptor that is issued and closed again leaves only its trace in the accounts. */
  lemma ReleasedAtOnce(k: Kernel, h: Handle, fd: nat, target: nat)
    requires h.buffer.None? && fd !in k.fds && !Buffered(k, fd)
    ensures AfterClose(Issue(k, fd, target), h.(fd := fd), true).kernel
         == k.(issued := k.issued + 1, closed := k.closed + 1)
  {
    var issued := Issue(k, fd, target);
    assert !Buffered(issued, fd);
    assert issued.fds - {fd} == k.fds;
  }

  /** A buffer reads from an open descriptor. */
  lemma BuffersAreOnOpenDescriptors(w: World, fd: nat)
    requires Inv(w) && fd !in w.kernel.fds
    ensures !Buffered(w.kernel, fd)
  {
    forall b | b in w.kernel.buffers
      ensures w.kernel.buffers[b] != fd
    {
      assert BufferHeld(w, b);
      var j :| j in w.wrappers && w.wrappers[j].buffer == Some(b);
      assert Backed(w.kernel, w.wrappers[j]);
    }
  }

  lemma InvOpen(w: World, id: nat, pinned: bool, path: string, c: OpenCalls)
    requires Inv(w) && Enabled(w, Open(id, pinned, path, c)) && c.initOk && !IsOpen(w.wrappers[id])
    ensures Inv(With(w, id, AfterOpen(w.kernel, w.wrappers[id], pinned, path, c)))
  {
    var r := AfterOpen(w.kernel, w.wrappers[id], pinned, path, c);
    if pinned {
      if 0 <= c.reply {
        BuffersAreOnOpenDescriptors(w, c.reply);
      }
      AdoptIsLocal(w, id, path, c);
    } else {
      CreateIsLocal(w, id, c);
    }
    ChangeOne(w, id, r.kernel, r.handle);
  }

  /** Move assignment is a close followed by a move into the emptied wrapper. */
  lemma MoveAssignIsCloseThenMove(w: World, id: nat, source: nat)
    requires Enabled(w, MoveAssign(id, source)) && id != source && Backed(w.kernel, w.wrappers[id])
    ensures var closed := With(w, id, AfterClose(w.kernel, w.wrappers[id], true));
            var h := closed.wrappers[source];
            Step(w, MoveAssign(id, source)) == closed.(wrappers := closed.wrappers[id := h][source := MovedFrom(h)])
  {
    var h := w.wrappers[source];
    var closed := With(w, id, AfterClose(w.kernel, w.wrappers[id], true));
    assert closed.wrappers[source] == h;
    assert closed.wrappers[id := h] == w.wrappers[id := h];
  }

  lemma InvMoveAssign(w: World, id: nat, source: nat)
    requires Inv(w) && Enabled(w, MoveAssign(id, source)) && id != source
    ensures Inv(Step(w, MoveAssign(id, source)))
  {
    MoveAssignIsCloseThenMove(w, id, source);
    InvClose(w, id, true);
    MoveOver(With(w, id, AfterClose(w.kernel, w.wrappers[id], true)), id, source);
  }

  lemma DestroyIsCloseThenDrop(w: World, id: nat)
    requires id in w.wrappers && Backed(w.kernel, w.wrappers[id])
    ensures var closed := With(w, id, AfterClose(w.kernel, w.wrappers[id], true));
            Step(w, Destroy(id)) == closed.(wrappers := closed.wrappers - {id})
  {
    var closed := With(w, id, AfterClose(w.kernel, w.wrappers[id], true));
    assert closed.wrappers - {id} == w.wrappers - {id};
  }

  lemma InvDestroy(w: World, id: nat)
    requires Inv(w) && id in w.wrappers
    ensures Inv(Step(w, Destroy(id)))
  {
    DestroyIsCloseThenDrop(w, id);
    InvClose(w, id, true);
    DropEmpty(With(w, id, AfterClose(w.kernel, w.wrappers[id], true)), id);
  }

  lemma InvStep(w: World, e: Event)
    requires Inv(w) && Enabled(w, e)
    ensures Inv(Step(w, e))
  {
    match e
    case Construct(id, kind) => AddEmpty(w, id, Handle(kind, -1, "", false, None, 0));
    case Open(id, pinned, path, c) =>
      if c.initOk && !IsOpen(w.wrappers[id]) {
        InvOpen(w, id, pinned, path, c);
      } else {
        assert w.wrappers[id := w.wrappers[id]] == w.wrappers;
      }
    case Pin(id, path, statOk, pinOk) =>
      PinIsLocal(w, id, path, statOk, pinOk);
      ChangeOne(w, id, Step(w, e).kernel, Step(w, e).wrappers[id]);
    case Unpin(id, statOk, removeOk) =>
      UnpinIsLocal(w, id, statOk, removeOk);
      ChangeOne(w, id, Step(w, e).kernel, Step(w, e).wrappers[id]);
    case Close(id, closeOk) => InvClose(w, id, closeOk);
    case CreateBuffer(id, callbacks, made) =>
      BufferIsLocal(w, id, callbacks, made);
      ChangeOne(w, id, Step(w, e).kernel, Step(w, e).wrappers[id]);
    case MoveConstruct(id, source) => MoveOver(w, id, source);
    case MoveAssign(id, source) =>
      if id != source {
        InvMoveAssign(w, id, source);
      }
    case Destroy(id) => InvDestroy(w, id);
  }

  lemma {:induction false} InvRun(w: World, events: seq<Event>)
    requires Inv(w) && IsRun(w, events)
    ensures Inv(Final(w, events))
    decreases |events|
  {
    if events != [] {
      InvStep(w, events[0]);
      InvRun(Step(w, events[0]), events[1..]);
    }
  }

  // ---------------------------------------------------------------- results about every run

  lemma ReachableInv(w: World, events: seq<Event>)
    requires Init(w) && IsRun(w, events)
    ensures Inv(Final(w, events))
  {
    InvRun(w, events);
  }

  /**
   Descriptor conservation: everything issued is still open or was closed once, each open descriptor
   is held by exactly one live wrapper, and no call ever closed a descriptor twice, closed one under
   a live buffer, or freed a buffer twice.
   */
  lemma DescriptorsConserved(w: World, events: seq<Event>)
    requires Init(w) && IsRun(w, events)
    ensures var end := Final(w, events);
            && end.kernel.clean
            && end.kernel.issued == end.kernel.closed + |end.kernel.fds|
            && (forall fd :: fd in end.kernel.fds ==> exists id :: id in end.wrappers && end.wrappers[id].fd == fd)
            && (forall id :: id in end.wrappers && IsOpen(end.wrappers[id]) ==> end.wrappers[id].fd in end.kernel.fds)
            && (forall i, j :: i in end.wrappers && j in end.wrappers && i != j ==>
                                 IsOpen(end.wrappers[i]) ==> end.wrappers[i].fd != end.wrappers[j].fd)
  {
    ReachableInv(w, events);
    var end := Final(w, events);
    forall fd | fd in end.kernel.fds
      ensures exists id :: id in end.wrappers && end.wrappers[id].fd == fd
    {
      assert FdHeld(end, fd);
    }
    assert forall id :: id in end.wrappers ==> Backed(end.kernel, end.wrappers[id]);
    assert forall i, j :: i in end.wrappers && j in end.wrappers && i != j ==> Apart(end.wrappers[i], end.wrappers[j]);
  }

  /** One wrapper holds the buffer and the descriptor it reads from. */
  predicate HeldTogether(w: World, b: nat)
    requires b in w.kernel.buffers
  {
    exists id :: id in w.wrappers && w.wrappers[id].buffer == Some(b) && w.wrappers[id].fd == w.kernel.buffers[b]
  }

  /** A userspace buffer exists only while the descriptor it reads from is open, in the wrapper that holds both. */
  lemma BuffersLiveInsideDescriptors(w: World, events: seq<Event>)
    requires Init(w) && IsRun(w, events)
    ensures var end := Final(w, events);
            forall b :: b in end.kernel.buffers ==>
              end.kernel.buffers[b] in end.kernel.fds && HeldTogether(end, b)
  {
    ReachableInv(w, events);
    var end := Final(w, events);
    forall b | b in end.kernel.buffers
      ensures end.kernel.buffers[b] in end.kernel.fds
      ensures HeldTogether(end, b)
    {
      assert BufferHeld(end, b);
      var id :| id in end.wrappers && end.wrappers[id].buffer == Some(b);
      assert Backed(end.kernel, end.wrappers[id]);
    }
  }

  /** An owner is open and its path exists and names its map; no two live wrappers own the same path. */
  lemma PinsHaveOneOwner(w: World, events: seq<Event>)
    requires Init(w) && IsRun(w, events)
    ensures var end := Final(w, events);
            && (forall id :: id in end.wrappers && end.wrappers[id].owner ==>
                               && IsOpen(end.wrappers[id]) && end.wrappers[id].fd in end.kernel.fds
                               && end.wrappers[id].pinPath in end.kernel.paths
                               && end.kernel.paths[end.wrappers[id].pinPath] == end.kernel.fds[end.wrappers[id].fd])
            && (forall i, j :: i in end.wrappers && j in end.wrappers && i != j
                               && end.wrappers[i].owner && end.wrappers[j].owner ==>
                                 end.wrappers[i].pinPath != end.wrappers[j].pinPath)
  {
    ReachableInv(w, events);
    var end := Final(w, events);
    assert forall id :: id in end.wrappers ==> Backed(end.kernel, end.wrappers[id]);
    assert forall i, j :: i in end.wrappers && j in end.wrappers && i != j ==> Apart(end.wrappers[i], end.wrappers[j]);
  }

  /**
   A path leaves bpffs only through an unpin by its owner, the holder of the ticket of the very
   `pin()` that created it; and no operation redirects a path to another map.
   */
  lemma PathRemovedOnlyByItsOwner(w: World, e: Event, path: string)
    requires Inv(w) && Enabled(w, e) && path in w.kernel.paths
    ensures path in Step(w, e).kernel.paths ==> Step(w, e).kernel.paths[path] == w.kernel.paths[path]
    ensures path !in Step(w, e).kernel.paths ==>
              && e.Unpin? && w.wrappers[e.id].owner && w.wrappers[e.id].pinPath == path
              && path in w.kernel.tickets && w.kernel.tickets[path] == w.wrappers[e.id].ticket
  {
    if e.Unpin? {
      assert Backed(w.kernel, w.wrappers[e.id]);
    } else if !e.Pin? {
      OnlyPinAndUnpinTouchPaths(w, e);
    }
  }

  lemma OnlyPinAndUnpinTouchPaths(w: World, e: Event)
    requires Enabled(w, e) && !e.Pin? && !e.Unpin?
    ensures Step(w, e).kernel.paths == w.kernel.paths
  {
  }

  /**
   What an owner's unpin comes to. The path is gone exactly on success, it cannot be found missing,
   ownership is kept exactly if the removal itself failed, and a path is left without an owner
   exactly if its existence could not be checked.
   */
  lemma UnpinOfOwner(w: World, id: nat, statOk: bool, removeOk: bool)
    requires Inv(w) && id in w.wrappers && w.wrappers[id].owner
    ensures var h, r := w.wrappers[id], AfterUnpin(w.kernel, w.wrappers[id], statOk, removeOk);
            && (r.code == NoError <==> h.pinPath !in r.kernel.paths)
            && r.code != NotPinnedError
            && (r.handle.owner <==> statOk && !removeOk)
            && (!r.handle.owner && h.pinPath in r.kernel.paths <==> !statOk)
            && IsOpen(r.handle)
  {
    assert Backed(w.kernel, w.wrappers[id]);
  }

  /** `pin()` succeeds if and only if the wrapper is open and owns nothing, the path is free and both calls succeed. */
  lemma PinSucceedsIff(w: World, id: nat, path: string, statOk: bool, pinOk: bool)
    requires Inv(w) && id in w.wrappers
    ensures var h, r := w.wrappers[id], AfterPin(w.kernel, w.wrappers[id], path, statOk, pinOk);
            && (r.code == NoError <==> h.fd >= 0 && !h.owner && statOk && path !in w.kernel.paths && pinOk)
            && (r.code == NoError ==> r.handle.owner && r.handle.pinPath == path && path in r.kernel.paths
                                      && h.fd in w.kernel.fds && r.kernel.paths[path] == w.kernel.fds[h.fd])
            && (r.code != NoError ==> r.handle == h && r.kernel == w.kernel)
  {
    assert Backed(w.kernel, w.wrappers[id]);
  }

  /** Unpinning undoes pinning: bpffs is as before, and the wrapper is as open and as free of pins as before. */
  lemma PinUnpinRoundTrip(k: Kernel, h: Handle, path: string)
    requires AfterPin(k, h, path, true, true).code == NoError
    ensures var pinned := AfterPin(k, h, path, true, true);
            var back := AfterUnpin(pinned.kernel, pinned.handle, true, true);
            && back.code == NoError && back.kernel.paths == k.paths && back.kernel.fds == k.fds
            && back.handle == h.(pinPath := "", ticket := back.handle.ticket)
  {
    var pinned := AfterPin(k, h, path, true, true);
    assert pinned.kernel.paths - {path} == k.paths;
  }

  /** Ownership comes from a `pin()` of one's own or from the wrapper one was moved from, ticket and path unchanged. */
  lemma OwnershipComesFromPinOrMove(w: World, e: Event, id: nat)
    requires Enabled(w, e) && id in Step(w, e).wrappers && Step(w, e).wrappers[id].owner
    requires id in w.wrappers && w.wrappers[id].owner ==> IsOpen(w.wrappers[id])
    ensures var h := Step(w, e).wrappers[id];
            || (id in w.wrappers && w.wrappers[id].owner
                && w.wrappers[id].ticket == h.ticket && w.wrappers[id].pinPath == h.pinPath)
            || (e.Pin? && e.id == id && e.path == h.pinPath && h.ticket == w.kernel.pins + 1)
            || ((e.MoveConstruct? || e.MoveAssign?) && e.id == id && w.wrappers[e.source].owner
                && w.wrappers[e.source].ticket == h.ticket && w.wrappers[e.source].pinPath == h.pinPath)
  {
  }

  // ---------------------------------------------------------------- paths over whole runs

  predicate Owned(w: World, path: string) {
    exists id :: id in w.wrappers && w.wrappers[id].owner && w.wrappers[id].pinPath == path
  }

  /** The operations that take an owner's pin from it and leave the path. */
  predicate Orphans(e: Event, id: nat) {
    || (e.Close? && e.id == id)
    || (e.Destroy? && e.id == id)
    || (e.MoveAssign? && e.id == id && e.source != id)
    || (e.Unpin? && e.id == id && !e.statOk)
  }

  /** Among other wrappers nobody owns the path of an owner. */
  lemma OneOwner(w: World, id: nat, other: nat)
    requires Sound(w) && id in w.wrappers && w.wrappers[id].owner && other in w.wrappers && other != id
    ensures !(w.wrappers[other].owner && w.wrappers[other].pinPath == w.wrappers[id].pinPath)
  {
    assert Apart(w.wrappers[id], w.wrappers[other]);
  }

  lemma OrphansLeaveNoOwner(w: World, e: Event, id: nat)
    requires Inv(w) && Enabled(w, e) && id in w.wrappers && w.wrappers[id].owner && Orphans(e, id)
    ensures !Owned(Step(w, e), w.wrappers[id].pinPath)
  {
    var path := w.wrappers[id].pinPath;
    assert Backed(w.kernel, w.wrappers[id]);
    forall other | other in Step(w, e).wrappers
      ensures !(Step(w, e).wrappers[other].owner && Step(w, e).wrappers[other].pinPath == path)
    {
      if other != id {
        assert other in w.wrappers;
        OneOwner(w, id, other);
      } else if e.MoveAssign? {
        OneOwner(w, id, e.source);
      }
    }
  }

  /** The wrapper that has, after the step, what `id` had before it. */
  function HeirStep(e: Event, id: nat): nat {
    if (e.MoveConstruct? || e.MoveAssign?) && e.source == id then e.id else id
  }

  lemma HeirOwns(w: World, e: Event, id: nat)
    requires Inv(w) && (e.MoveConstruct? || e.MoveAssign?) && Enabled(w, e)
    requires id in w.wrappers && w.wrappers[id].owner && !Orphans(e, id)
    ensures Owned(Step(w, e), w.wrappers[id].pinPath)
  {
    var heir, next := HeirStep(e, id), Step(w, e);
    assert heir in next.wrappers && next.wrappers[heir].owner && next.wrappers[heir].pinPath == w.wrappers[id].pinPath;
  }

  lemma OthersKeepOwner(w: World, e: Event, id: nat)
    requires Inv(w) && Enabled(w, e) && !e.MoveConstruct? && !e.MoveAssign?
    requires id in w.wrappers && w.wrappers[id].owner && !Orphans(e, id)
    ensures w.wrappers[id].pinPath !in Step(w, e).kernel.paths || Owned(Step(w, e), w.wrappers[id].pinPath)
  {
    var path, next := w.wrappers[id].pinPath, Step(w, e);
    assert Backed(w.kernel, w.wrappers[id]);
    if path in next.kernel.paths {
      assert id in next.wrappers && next.wrappers[id].owner && next.wrappers[id].pinPath == path;
    }
  }

  /**
   An owner's path is left without an owner if and only if the owner is closed, destroyed or assigned
   over, or its unpin cannot check whether the path exists.
   */
  lemma OrphanedIff(w: World, e: Event, id: nat)
    requires Inv(w) && Enabled(w, e) && id in w.wrappers && w.wrappers[id].owner
    ensures var path := w.wrappers[id].pinPath;
            path in Step(w, e).kernel.paths && !Owned(Step(w, e), path) <==> Orphans(e, id)
  {
    var path := w.wrappers[id].pinPath;
    assert Backed(w.kernel, w.wrappers[id]);
    if Orphans(e, id) {
      OrphansLeaveNoOwner(w, e, id);
      PathRemovedOnlyByItsOwner(w, e, path);
    } else if e.MoveConstruct? || e.MoveAssign? {
      HeirOwns(w, e, id);
    } else {
      OthersKeepOwner(w, e, id);
    }
  }

  lemma UnownedStep(w: World, e: Event, path: string)
    requires Inv(w) && Enabled(w, e) && path in w.kernel.paths && !Owned(w, path)
    ensures path in Step(w, e).kernel.paths && Step(w, e).kernel.paths[path] == w.kernel.paths[path]
    ensures !Owned(Step(w, e), path)
  {
    PathRemovedOnlyByItsOwner(w, e, path);
    forall id | id in Step(w, e).wrappers && Step(w, e).wrappers[id].owner
      ensures Step(w, e).wrappers[id].pinPath != path
    {
      assert id in w.wrappers ==> Backed(w.kernel, w.wrappers[id]);
      OwnershipComesFromPinOrMove(w, e, id);
    }
  }

  /** A path that no live wrapper owns, such as a pin of an earlier process, is never removed or redirected. */
  lemma {:induction false} UnownedPathStays(w: World, events: seq<Event>, path: string)
    requires Inv(w) && IsRun(w, events) && path in w.kernel.paths && !Owned(w, path)
    ensures path in Final(w, events).kernel.paths && Final(w, events).kernel.paths[path] == w.kernel.paths[path]
    ensures !Owned(Final(w, events), path)
    decreases |events|
  {
    if events != [] {
      UnownedStep(w, events[0], path);
      InvStep(w, events[0]);
      UnownedPathStays(Step(w, events[0]), events[1..], path);
    }
  }

  /** The wrapper that has, after the run, what `id` had before it. */
  function Heir(events: seq<Event>, id: nat): nat {
    if events == [] then id else Heir(events[1..], HeirStep(events[0], id))
  }

  lemma {:induction false} HeirExtends(events: seq<Event>, e: Event, id: nat)
    ensures Heir(events + [e], id) == HeirStep(e, Heir(events, id))
  {
    if events == [] {
      assert events + [e] == [e];
    } else {
      HeirExtends(events[1..], e, HeirStep(events[0], id));
      assert (events + [e])[1..] == events[1..] + [e];
    }
  }

  lemma {:induction false} RunSplits(w: World, events: seq<Event>, i: nat)
    requires IsRun(w, events) && i < |events|
    ensures IsRun(w, events[..i]) && Enabled(Final(w, events[..i]), events[i])
    ensures i + 1 == |events| ==> Final(w, events) == Step(Final(w, events[..i]), events[i])
    decreases i
  {
    if i > 0 {
      RunSplits(Step(w, events[0]), events[1..], i - 1);
      assert events[..i][1..] == events[1..][..i - 1];
    }
  }

  /** `events[i]` is the `pin()` that created `path`, and `id` has come by it through moves alone. */
  predicate PinnedBy(w: World, events: seq<Event>, i: nat, path: string, id: nat)
    requires IsRun(w, events)
  {
    && i < |events| && events[i].Pin? && events[i].path == path
    && IsRun(w, events[..i]) && path !in Final(w, events[..i]).kernel.paths
    && Heir(events[i + 1..], events[i].id) == id
  }

  lemma PinnedByExtends(w: World, events: seq<Event>, e: Event, i: nat, path: string, id: nat)
    requires IsRun(w, events) && IsRun(w, events + [e]) && PinnedBy(w, events, i, path, id)
    ensures PinnedBy(w, events + [e], i, path, HeirStep(e, id))
  {
    HeirExtends(events[i + 1..], e, events[i].id);
    assert (events + [e])[i + 1..] == events[i + 1..] + [e];
    assert (events + [e])[..i] == events[..i];
  }

  /** Every owner in a run can be traced back to the `pin()` that made it one. */
  lemma {:induction false} OwnerTracesToPin(w: World, events: seq<Event>, id: nat) returns (i: nat)
    requires Init(w) && IsRun(w, events)
    requires id in Final(w, events).wrappers && Final(w, events).wrappers[id].owner
    ensures PinnedBy(w, events, i, Final(w, events).wrappers[id].pinPath, id)
    decreases |events|
  {
    var n := |events| - 1;
    RunSplits(w, events, n);
    var before, e := events[..n], events[n];
    assert events == before + [e];
    var mid, path := Final(w, before), Final(w, events).wrappers[id].pinPath;
    ReachableInv(w, before);
    assert id in mid.wrappers ==> Backed(mid.kernel, mid.wrappers[id]);
    OwnershipComesFromPinOrMove(mid, e, id);
    if (e.MoveConstruct? || e.MoveAssign?) && e.id == id {
      i := OwnerTracesToPin(w, before, e.source);
      PinnedByExtends(w, before, e, i, path, e.source);
    } else if id in mid.wrappers && mid.wrappers[id].owner {
      i := OwnerTracesToPin(w, before, id);
      PinnedByExtends(w, before, e, i, path, id);
    } else {
      i := n;
    }
  }

  /**
   Over every run: a path is removed only by an unpin of the wrapper whose own `pin()` created it, or
   of the one that has since been moved from it, and is never redirected.
   */
  lemma RemovedByHeirOfItsPin(w: World, events: seq<Event>, e: Event, path: string) returns (i: nat)
    requires Init(w) && IsRun(w, events) && Enabled(Final(w, events), e)
    requires path in Final(w, events).kernel.paths
    ensures var before, after := Final(w, events).kernel, Step(Final(w, events), e).kernel;
            && (path in after.paths ==> after.paths[path] == before.paths[path])
            && (path !in after.paths ==> e.Unpin? && PinnedBy(w, events, i, path, e.id))
  {
    ReachableInv(w, events);
    PathRemovedOnlyByItsOwner(Final(w, events), e, path);
    i := 0;
    if path !in Step(Final(w, events), e).kernel.paths {
      i := OwnerTracesToPin(w, events, e.id);
    }
  }

  // ---------------------------------------------------------------- layouts

  /**
   Layout agreement: the kernel layout behind an open plain map is the recorded one cast to 32 bits,
   so the two are equal exactly if the recorded sizes fit; likewise for a ring buffer's size.
   */
  lemma LayoutsAgree(w: World, events: seq<Event>, id: nat)
    requires Init(w) && IsRun(w, events)
    requires id in Final(w, events).wrappers && IsOpen(Final(w, events).wrappers[id])
    ensures var k, h := Final(w, events).kernel, Final(w, events).wrappers[id];
            && h.fd in k.fds && k.fds[h.fd] in k.layouts
            && var l := k.layouts[k.fds[h.fd]];
            && (h.kind.PlainMap? ==> (h.kind.layout == l <==> Fits(h.kind.layout)))
            && (h.kind.Ring? ==> l.mapType == RINGBUF && (h.kind.size == l.maxEntries <==> h.kind.size < TWO_32))
            && (h.kind.Perf? ==> l.mapType == PERF_EVENT_ARRAY)
  {
    ReachableInv(w, events);
    var k, h := Final(w, events).kernel, Final(w, events).wrappers[id];
    assert Backed(k, h);
    EqualIffFits(h.kind, k.layouts[k.fds[h.fd]]);
  }

  lemma EqualIffFits(kind: Kind, l: Layout)
    requires Agrees(kind, l) && Fits(l)
    ensures kind.PlainMap? ==> (kind.layout == l <==> Fits(kind.layout))
    ensures kind.Ring? ==> (kind.size == l.maxEntries <==> kind.size < TWO_32)
  {
  }

  /** A pinned object with a different layout is refused, and the wrapper stays closed. */
  lemma MismatchedPinIsRefused(w: World, id: nat, path: string, c: OpenCalls)
    requires Inv(w) && Enabled(w, Open(id, true, path, c)) && !IsOpen(w.wrappers[id])
    requires c.initOk && c.statOk && c.infoOk && 0 <= c.reply && path in w.kernel.paths
    ensures var r := AfterOpen(w.kernel, w.wrappers[id], true, path, c);
            var l := w.kernel.layouts[w.kernel.paths[path]];
            var matches :=
              match w.wrappers[id].kind
              case PlainMap(asked) =>
                && l.mapType != 4 && l.mapType != 27 && l.mapType == asked.mapType && l.keySize == asked.keySize
                && l.valueSize == asked.valueSize && l.maxEntries == asked.maxEntries
              case Ring(size) => l.mapType == 27 && l.maxEntries == size
              case Perf(_) => l.mapType == 4;
            && (r.code == PinnedMapMismatchError <==> !matches)
            && (r.code == NoError <==> matches)
            && (matches ==> r.handle.pinPath == path && !r.handle.owner
                            && r.kernel.fds == w.kernel.fds[c.reply := w.kernel.paths[path]])
            && (IsOpen(r.handle) <==> r.code == NoError)
            && (r.code != NoError ==> r.kernel.fds == w.kernel.fds && r.kernel.paths == w.kernel.paths)
  {
    assert Backed(w.kernel, w.wrappers[id]);
    BuffersAreOnOpenDescriptors(w, c.reply);
    ReleasedAtOnce(w.kernel, w.wrappers[id], c.reply, w.kernel.paths[path]);
  }

  // ---------------------------------------------------------------- two runs

  /** A world with no map, no pin and no wrapper. */
  function Blank(): World {
    World(Kernel(map[], map[], map[], map[], map[], 0, 0, 0, true), map[])
  }

  /** A wrapper is constructed and opened fresh, on descriptor 3. */
  function FreshOpen(kind: Kind): seq<Event> {
    [Construct(0, kind), Open(0, false, "", OpenCalls(true, true, 3, true, 0, 1))]
  }

  lemma FreshOpenRun(layout: Layout)
    ensures Init(Blank()) && IsRun(Blank(), FreshOpen(PlainMap(layout)))
    ensures Final(Blank(), FreshOpen(PlainMap(layout)))
         == World(Kernel(map[3 := 0], map[0 := Truncated(layout)], map[], map[], map[], 0, 1, 0, true),
                  map[0 := Handle(PlainMap(layout), 3, "", false, None, 0)])
  {
    var events := FreshOpen(PlainMap(layout));
    var w1 := Step(Blank(), events[0]);
    assert w1.wrappers == map[0 := Handle(PlainMap(layout), -1, "", false, None, 0)];
    var w2 := Step(w1, events[1]);
    assert w2.wrappers == map[0 := Handle(PlainMap(layout), 3, "", false, None, 0)];
    assert w2.kernel.fds == map[3 := 0] && w2.kernel.layouts == map[0 := Truncated(layout)];
    assert events[1..] == [events[1]] && [events[1]][1..] == [];
    assert Final(w1, [events[1]]) == Final(w2, []);
  }

  /** A map with keys of 2^32 + 4 bytes is created with keys of 4, and its wrapper goes on recording the former. */
  lemma OversizedLayoutDiffers()
    ensures var events := FreshOpen(PlainMap(Layout(1, TWO_32 + 4, 4, 10)));
            && Init(Blank()) && IsRun(Blank(), events)
            && var end := Final(Blank(), events);
            && 0 in end.wrappers && end.wrappers[0].fd == 3
            && 3 in end.kernel.fds && end.kernel.fds[3] in end.kernel.layouts
            && end.wrappers[0].kind == PlainMap(Layout(1, TWO_32 + 4, 4, 10))
            && end.kernel.layouts[end.kernel.fds[3]] == Layout(1, 4, 4, 10)
  {
    FreshOpenRun(Layout(1, TWO_32 + 4, 4, 10));
  }

  /** A wrapper that pins its map and is closed leaves the pin behind, with nobody to remove it. */
  lemma ClosedOwnerLeavesPath()
    ensures var events := FreshOpen(PlainMap(Layout(1, 4, 4, 10))) + [Pin(0, "m", true, true), Close(0, true)];
            && Init(Blank()) && IsRun(Blank(), events)
            && "m" in Final(Blank(), events).kernel.paths && !Owned(Final(Blank(), events), "m")
  {
    var events := FreshOpen(PlainMap(Layout(1, 4, 4, 10)));
    FreshOpenRun(Layout(1, 4, 4, 10));
    var open := Final(Blank(), events);
    RunExtends(Blank(), events, Pin(0, "m", true, true));
    var pinned := Step(open, Pin(0, "m", true, true));
    RunExtends(Blank(), events + [Pin(0, "m", true, true)], Close(0, true));
    assert events + [Pin(0, "m", true, true)] + [Close(0, true)] == events + [Pin(0, "m", true, true), Close(0, true)];
    InvRun(Blank(), events + [Pin(0, "m", true, true)]);
    OrphanedIff(pinned, Close(0, true), 0);
  }

  lemma {:induction false} RunExtends(w: World, events: seq<Event>, e: Event)
    requires IsRun(w, events) && Enabled(Final(w, events), e)
    ensures IsRun(w, events + [e]) && Final(w, events + [e]) == Step(Final(w, events), e)
    decreases |events|
  {
    if events == [] {
      assert [e][1..] == [];
      assert events + [e] == [e];
    } else {
      RunExtends(Step(w, events[0]), events[1..], e);
      assert (events + [e])[1..] == events[1..] + [e];
    }
  }
}
