/** What every IPC call of kernel/ipc/ipc.c does with its payload, sender and channel arguments. */
module IpcArguments {
  import opened Options
  import opened Words

  /** IPC_MESSAGE_DATA_MAX is 64. */
  type Payload = s: seq<Byte> | |s| <= 64
  type Buffer = s: seq<Byte> | |s| == 64 witness seq(64, _ => 0)
  type Size = n: nat | n <= 64

  /** ipc_resolve_sender_tid: zero stands for the running task; a running task cannot name another one. */
  function ResolveSender(tid: nat, running: nat): (r: Option<nat>)
    ensures r.Some? && running != 0 ==> r.value == running
    ensures running == 0 ==> r == Some(tid)
    ensures r.None? <==> tid != 0 && running != 0 && tid != running
  {
    if tid == 0 then Some(running)
    else if running != 0 && tid != running then None
    else Some(tid)
  }

  /** ipc_is_valid_channel_id: the identifier is cut to 16 bits before it is compared and used. */
  function IndexOf(id: int): (c: nat)
    ensures c < 65536
  {
    id % 65536
  }
}
