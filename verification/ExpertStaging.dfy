/**
 * Double-buffered expert upload of native/provider_gate/provider_cuda_moe.cpp.  Two pinned host slabs
 * alternate; each upload queues an asynchronous copy from its slab to a new device tensor.  The device
 * may run queued copies, oldest first, at any moment: `Progress` stands for that and is called
 * wherever the host can be overtaken.  What fails is an input: an operation is told its fault.
 */
module ExpertStaging {
  import opened Wrappers

  const SLOTS: nat := 2

  /** How an operation on the device or the host ended. */
  datatype Failure = NoFailure | OutOfMemory | DeviceError

  /** What goes wrong with one upload, if it is carried out: waiting or staging, allocating, or copying. */
  datatype UploadFault = Fine | StagingFails(memory: bool) | AllocationFails(memory: bool) | CopyFails(memory: bool)

  function UploadFailure(fault: UploadFault): Failure {
    if fault.Fine? then NoFailure else if fault.memory then OutOfMemory else DeviceError
  }

  /** A queued copy from a pinned slab to a device tensor. */
  datatype Copy = Copy(slot: nat, tensor: nat)

  /** No upload is ever replaced: what a tensor was uploaded from stays so. */
  ghost predicate Extends<Bytes>(before: map<nat, Bytes>, after: map<nat, Bytes>) {
    forall t :: t in before ==> t in after && after[t] == before[t]
  }

  class Staging<Bytes(0)> {
    const pinned: array<Bytes>
    /** For each slab the tensor whose ready event still guards it. */
    var ready: seq<Option<nat>>
    var cursor: nat
    var queue: seq<Copy>
    /** What each device tensor holds at this moment. */
    var device: map<nat, Bytes>
    var nextTensor: nat
    /** What each device tensor was uploaded from. */
    ghost var source: map<nat, Bytes>

    predicate Queued(tensor: nat)
      reads this
    {
      exists i :: 0 <= i < |queue| && queue[i].tensor == tensor
    }

    ghost predicate Valid()
      reads this, pinned
    {
      && pinned.Length == SLOTS && |ready| == SLOTS && cursor < SLOTS
      && (forall i :: 0 <= i < |queue| ==> QueuedOk(queue[i]))
      && (forall i, j :: 0 <= i < j < |queue| ==> queue[i].slot != queue[j].slot)
      && source.Keys == device.Keys
      && (forall t :: t in source ==> t < nextTensor && (Queued(t) || device[t] == source[t]))
    }

    /** A pending copy finds in its slab the bytes it was queued for, and the slab knows it is guarded. */
    ghost predicate QueuedOk(c: Copy)
      requires pinned.Length == SLOTS && |ready| == SLOTS
      reads this, pinned
    {
      && c.slot < SLOTS && ready[c.slot] == Some(c.tensor)
      && c.tensor in source && pinned[c.slot] == source[c.tensor]
    }

    /** No pending copy reads this slab. */
    predicate Free(slot: nat)
      reads this
    {
      forall i :: 0 <= i < |queue| ==> queue[i].slot != slot
    }

    constructor ()
      ensures Valid() && source == map[] && fresh(pinned)
    {
      pinned := new Bytes[SLOTS];
      ready := [None, None];
      cursor, queue, device, nextTensor, source := 0, [], map[], 0, map[];
    }

    /** The device performs its oldest queued copy. */
    method CompleteOldest()
      requires Valid() && queue != []
      modifies this`queue, this`device
      ensures Valid() && queue == old(queue)[1..] && device.Keys == old(device.Keys)
    {
      var c := queue[0];
      assert QueuedOk(c);
      ghost var was := queue;
      device := device[c.tensor := pinned[c.slot]];
      queue := queue[1..];
      forall t | t in source ensures Queued(t) || device[t] == source[t] {
        if t != c.tensor && device[t] != source[t] {
          var i :| 0 <= i < |was| && was[i].tensor == t;
          assert queue[i - 1].tensor == t;
        }
      }
    }

    /** The device performs as many queued copies as it likes. */
    method Progress()
      requires Valid()
      modifies this`queue, this`device
      ensures Valid() && device.Keys == old(device.Keys)
      ensures forall s :: old(Free(s)) ==> Free(s)
    {
      while queue != []
        invariant Valid() && device.Keys == old(device.Keys)
        invariant forall s :: old(Free(s)) ==> Free(s)
        decreases |queue|
      {
        if * { break; }
        CompleteOldest();
      }
    }

    /** cudaEventSynchronize or cudaStreamWaitEvent on a tensor's ready event: its copy is done on return. */
    method WaitFor(tensor: nat)
      requires Valid()
      modifies this`queue, this`device
      ensures Valid() && device.Keys == old(device.Keys) && !Queued(tensor)
    {
      while Queued(tensor)
        invariant Valid() && device.Keys == old(device.Keys)
        decreases |queue|
      {
        CompleteOldest();
      }
    }

    /** Only the tensor whose event guards a slab can still be copied from it. */
    lemma GuardDecides(slot: nat)
      requires Valid() && slot < SLOTS
      requires ready[slot].Some? ==> !Queued(ready[slot].value)
      ensures Free(slot)
    {
      forall i | 0 <= i < |queue| ensures queue[i].slot != slot {
        assert QueuedOk(queue[i]) && Queued(queue[i].tensor);
      }
    }

    /** The slab's own last copy is done and its event is dropped. */
    method FreeSlab(slot: nat)
      requires Valid() && slot < SLOTS
      modifies this`queue, this`device, this`ready
      ensures Valid() && device.Keys == old(device.Keys) && Free(slot)
    {
      if ready[slot].Some? {
        WaitFor(ready[slot].value);
      }
      GuardDecides(slot);
      ready := ready[slot := None];
    }

    /** The host memcpy into a slab that no pending copy reads. */
    method Fill(slot: nat, bytes: Bytes)
      requires Valid() && slot < SLOTS && Free(slot)
      modifies pinned
      ensures Valid() && pinned[slot] == bytes
    {
      pinned[slot] := bytes;
      forall i | 0 <= i < |queue| ensures QueuedOk(queue[i]) {
        assert old(QueuedOk(queue[i]));
      }
    }

    /** Queue the copy of a filled slab to a new tensor of unknown contents. */
    method Enqueue(slot: nat) returns (tensor: nat)
      requires Valid() && slot < SLOTS && Free(slot)
      modifies this`queue, this`device, this`ready, this`nextTensor, this`source
      ensures Valid() && tensor !in old(source) && source == old(source)[tensor := pinned[slot]]
    {
      tensor := nextTensor;
      nextTensor := nextTensor + 1;
      var uninitialized: Bytes := *;
      ghost var was := queue;
      device := device[tensor := uninitialized];
      source := source[tensor := pinned[slot]];
      queue := queue + [Copy(slot, tensor)];
      ready := ready[slot := Some(tensor)];
      forall t | t in source ensures Queued(t) || device[t] == source[t] {
        assert queue[|was|].tensor == tensor;
        if t != tensor && device[t] != source[t] {
          var i :| 0 <= i < |was| && was[i].tensor == t;
          assert queue[i].tensor == t;
        }
      }
    }

    /** cudaStreamSynchronize: every queued copy is done on return. */
    method Drain()
      requires Valid()
      modifies this`queue, this`device
      ensures Valid() && device.Keys == old(device.Keys) && queue == []
    {
      while queue != []
        invariant Valid() && device.Keys == old(device.Keys)
        decreases |queue|
      {
        CompleteOldest();
      }
    }

    /** The copy was queued but its event was not recorded: the stream drains before the slab is given up. */
    method AbandonUpload(slot: nat)
      requires Valid() && slot < SLOTS
      modifies this`queue, this`device, this`ready
      ensures Valid()
    {
      Drain();
      ready := ready[slot := None];
    }

    /**
     * Stage the bytes in the next slab and queue their copy to a tensor of their own.  It fails exactly
     * when something goes wrong with it, and a copy that fails after it was queued is drained.
     */
    method Upload(bytes: Bytes, fault: UploadFault) returns (tensor: Option<nat>)
      requires Valid()
      modifies this, pinned
      ensures Valid() && Extends(old(source), source)
      ensures tensor.Some? <==> fault.Fine?
      ensures tensor.Some? ==> tensor.value !in old(source) && tensor.value in source && source[tensor.value] == bytes
    {
      var slot := cursor;
      cursor := (cursor + 1) % SLOTS;
      FreeSlab(slot);
      if fault.StagingFails? { return None; }
      Progress();
      Fill(slot, bytes);
      if fault.AllocationFails? { return None; }
      Progress();
      var uploaded := Enqueue(slot);
      if fault.CopyFails? {
        AbandonUpload(slot);
        return None;
      }
      return Some(uploaded);
    }

    /** A kernel or a host copy reads a tensor after waiting for its event, whenever that is. */
    method Read(tensor: nat) returns (bytes: Bytes)
      requires Valid() && tensor in source
      modifies this`queue, this`device
      ensures Valid() && device.Keys == old(device.Keys) && bytes == source[tensor]
    {
      WaitFor(tensor);
      bytes := device[tensor];
    }
  }
}
