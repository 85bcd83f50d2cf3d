/** The telemetry sender: an in-memory queue in front of the buffer.  `mu` is held for the whole of
    Send and of a timer flush, so each is one step for every other caller. */
module Sender {
  import opened FileNames
  import opened BufferSpec
  import opened SenderSpec
  import opened Buffer

  class Sender {
    const buffer: Buffer
    const batchSize: int
    var queue: seq<Batch>

    ghost function State(): Store
      reads this, buffer, buffer.dir
    {
      Store(queue, buffer.State())
    }

    constructor (buffer: Buffer, batchSize: int)
      ensures this.buffer == buffer && this.batchSize == batchSize
      ensures queue == []
    {
      this.buffer, this.batchSize, this.queue := buffer, batchSize, [];
    }

    /** Send: queues one datum and flushes when the batch size is reached. */
    method Send(item: Item, env: FlushEnv) returns (r: FlushResult, ghost log: Outcome)
      modifies this, buffer, buffer.dir
      ensures log == SenderSpec.Send(old(State()), batchSize, buffer.maxSize, item, env)
      ensures State() == log.store && r == log.result
    {
      queue := queue + [Batch([item])];
      if |queue| >= batchSize {
        r, log := Flush(env);
        return r, log;
      }
      return NotFlushed, Outcome(State(), NotFlushed, [], []);
    }

    /** flush: also what the five-minute timer calls. */
    method Flush(env: FlushEnv) returns (r: FlushResult, ghost log: Outcome)
      modifies this, buffer, buffer.dir
      ensures log == SenderSpec.Flush(old(State()), buffer.maxSize, env)
      ensures State() == log.store && r == log.result
    {
      if queue == [] {
        return NotFlushed, Outcome(State(), NotFlushed, [], []);
      }
      var data := Combine(queue);
      var sent, calls, slept := SendWithRetry(data, env.net);
      if sent != Delivered {
        var w := buffer.Write(data, env.bytes, env.now, env.modTime, env.diskOk);
        r := if w == Stored then Kept(sent) else KeptUnbuffered(w);
        return r, Outcome(State(), r, [], []);
      }
      queue := [];
      ghost var replayed := FlushBuffer(env);
      return Sent, Outcome(State(), Sent, data, replayed);
    }

    /** The combining loop of flush. */
    static method Combine(queue: seq<Batch>) returns (data: seq<Item>)
      ensures data == Combined(queue)
    {
      data := [];
      var todo := queue;
      while todo != []
        invariant data + Combined(todo) == Combined(queue)
        decreases |todo|
      {
        assert data + Combined(todo) == (data + todo[0].data) + Combined(todo[1..]);
        data := data + todo[0].data;
        todo := todo[1..];
      }
    }

    /** sendWithRetry: one request per round, waiting 1, 2, 4, 8 seconds before rounds 1 to 4. */
    static method SendWithRetry(data: seq<Item>, net: seq<Attempt>)
      returns (r: SendResult, calls: nat, slept: nat)
      ensures Retried(r, calls, slept) == Retry(net, Marshals(data), 0, MAX_RETRIES)
    {
      calls, slept := 0, 0;
      var attempt := 0;
      while attempt < MAX_RETRIES
        invariant 0 <= attempt <= MAX_RETRIES
        invariant var rest := Retry(net, Marshals(data), attempt, MAX_RETRIES);
                  Retried(rest.result, calls + rest.calls, slept + rest.slept)
                    == Retry(net, Marshals(data), 0, MAX_RETRIES)
      {
        if attempt > 0 {
          if Round(net, attempt).cancelled {
            return Cancelled, calls, slept;
          }
          slept := slept + Pow2(attempt - 1);
        }
        calls := calls + 1;
        if Marshals(data) && Round(net, attempt).acked {
          return Delivered, calls, slept;
        }
        attempt := attempt + 1;
      }
      return Exhausted, calls, slept;
    }

    /** flushBuffer: replays what can be read, and clears the buffer if every request succeeded. */
    method FlushBuffer(env: FlushEnv) returns (replayed: seq<Item>)
      modifies buffer, buffer.dir
      ensures Flushed(buffer.State(), replayed) == SenderSpec.FlushBuffer(old(buffer.State()), env)
    {
      replayed := [];
      var ok, todo := buffer.ReadAll(env.readOk, env.unreadable);
      if !ok || todo == [] {
        return replayed;
      }
      ghost var whole := Replay(todo, env.replies);
      var replies := env.replies;
      while todo != []
        invariant var rest := Replay(todo, replies); Replayed(replayed + rest.acked, rest.finished) == whole
        decreases |todo|
      {
        if todo[0].Encoded? {
          if replies == [] || !replies[0] {
            return replayed;
          }
          assert replayed + Replay(todo, replies).acked
              == (replayed + todo[0].items) + Replay(todo[1..], replies[1..]).acked;
          replayed := replayed + todo[0].items;
          replies := replies[1..];
        }
        todo := todo[1..];
      }
      var cleared := buffer.Clear(env.clearOk, env.stuck);
    }
  }
}
