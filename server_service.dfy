/**
 * The server's configuration and per-request work (src/server/mod.rs). The event loop, the
 * `TcpServer` accept loop, the pool's threads and the timer are not modelled; the race between
 * the timer and the computation is reduced to which side finished first.
 */
module ServerService {
  import opened Ints
  import opened Io
  import opened Messages

  /** A `futures_cpupool::CpuPool`: a fixed set of worker threads; clones of the handle share it. */
  class CpuPool {
    const size: nat

    /** `CpuPool::new(size)`, which panics when `size` is 0. */
    constructor (size: nat)
      requires size >= 1
      ensures this.size == size
    {
      this.size := size;
    }
  }

  datatype Duration = Duration(secs: u64, nanos: nat)

  /** `Duration::from_secs`. */
  function FromSecs(secs: u64): (d: Duration)
    ensures d.secs == secs && d.nanos == 0
  {
    Duration(secs, 0)
  }

  const DefaultTimeoutSecs: u64 := 5

  datatype Server = Server(cpuPool: CpuPool, timeout: Duration)

  /** The number of threads `Server::new` asks for: 0 stands for the CPU count. */
  function PoolSize(numCpus: usize, cpuCount: nat): (n: nat)
    requires cpuCount >= 1
    ensures n >= 1
    ensures numCpus == 0 ==> n == cpuCount
    ensures numCpus != 0 ==> n == numCpus as nat
  {
    if numCpus == 0 then cpuCount else numCpus as nat
  }

  /** `Server::default()`: a CPU-count pool and a 5-second timeout. `cpuCount` is `num_cpus::get()`. */
  method Default(cpuCount: nat) returns (s: Server)
    requires cpuCount >= 1
    ensures fresh(s.cpuPool)
    ensures s.cpuPool.size == cpuCount
    ensures s.timeout == FromSecs(DefaultTimeoutSecs)
  {
    var pool := new CpuPool(cpuCount);
    s := Server(pool, FromSecs(DefaultTimeoutSecs));
  }

  /** `Server::new(num_cpus, timeout_secs)`; `cpuCount` is `num_cpus::get()`. */
  method New(numCpus: usize, timeoutSecs: usize, cpuCount: nat) returns (s: Server)
    requires cpuCount >= 1
    ensures fresh(s.cpuPool)
    ensures numCpus == 0 ==> s.cpuPool.size == cpuCount
    ensures numCpus != 0 ==> s.cpuPool.size == numCpus as nat
    ensures s.cpuPool.size == PoolSize(numCpus, cpuCount)
    ensures s.timeout == Duration(timeoutSecs, 0)
  {
    var pool := new CpuPool(PoolSize(numCpus, cpuCount));
    s := Server(pool, FromSecs(timeoutSecs));
  }

  /** `Server::new(0, 5)` configures the same pool size and timeout as `Server::default()`. */
  method NewZeroIsDefault(cpuCount: nat) returns (configured: Server, default: Server)
    requires cpuCount >= 1
    ensures configured.cpuPool.size == default.cpuPool.size == cpuCount
    ensures configured.timeout == default.timeout
  {
    configured := New(0, DefaultTimeoutSecs, cpuCount);
    default := Default(cpuCount);
  }

  /** The per-connection service; its timer is not modelled. */
  datatype Worker = Worker(cpuPool: CpuPool, timeout: Duration)

  /** The closure `serve` runs for each accepted connection. */
  function NewWorker(s: Server): (w: Worker)
    ensures w.cpuPool == s.cpuPool
    ensures w.timeout == s.timeout
  {
    Worker(s.cpuPool, s.timeout)
  }

  /** However many connections arrive, their workers share the server's one pool and its timeout. */
  lemma WorkersShareOnePool(s: Server, workers: seq<Worker>)
    requires forall i :: 0 <= i < |workers| ==> workers[i] == NewWorker(s)
    ensures forall i, j :: 0 <= i < |workers| && 0 <= j < |workers| ==>
      workers[i].cpuPool == workers[j].cpuPool && workers[i].timeout == workers[j].timeout
  {
  }

  /** The fake computation: count from 0 to `number`, one increment per iteration. */
  method Count(number: u64) returns (counter: u64)
    ensures counter == number
  {
    counter := 0;
    for k := 0 to number as nat
      invariant counter as nat == k
    {
      counter := counter + 1;
    }
  }

  /** Which future of the `select` finished first. */
  datatype Side = TimerSide | CounterSide

  const TimerError: IoError := IoError(Other, "Timer error")
  const TimeoutError: IoError := IoError(Other, "Timeout error")

  /**
   * The timeout future: the timer's sleep, its error mapped to `Timer error`, then `.then(|_| ...)`,
   * which ignores whether the sleep succeeded.
   */
  function TimeoutFuture(sleep: Result<Unit>): (r: Result<Response>)
    ensures r == Ok(Failure)
  {
    var timer: Result<Unit> := match sleep case Ok(u) => Ok(u) case Err(_) => Err(TimerError);
    match timer
    case Ok(_) => Ok(Failure)
    case Err(_) => Ok(Failure)
  }

  /** The counter future, which only ever succeeds; `elapsed` is the measured time since the request began. */
  function CounterFuture(elapsed: F64): (r: Result<Response>)
    ensures r.Ok? && r.value.Success? && r.value.elapsed == elapsed
  {
    Ok(Success(elapsed))
  }

  /** `timeout.select(counter)`, keeping the winner's value and mapping its error to `Timeout error`. */
  function Select(first: Side, timeout: Result<Response>, counter: Result<Response>): (r: Result<Response>)
    ensures var winner := if first == TimerSide then timeout else counter;
            && (winner.Ok? ==> r == winner)
            && (winner.Err? ==> r == Err(TimeoutError))
  {
    var winner := if first == TimerSide then timeout else counter;
    match winner
    case Ok(v) => Ok(v)
    case Err(_) => Err(TimeoutError)
  }

  /**
   * `Worker::call`: the computation always runs to the end (there is no cancellation), and the
   * response is decided by which side of the race finished first.
   */
  method Call(req: Request, first: Side, sleep: Result<Unit>, elapsed: F64) returns (r: Result<Response>)
    ensures r.Ok?
    ensures first == TimerSide ==> r.value == Failure
    ensures first == CounterSide ==> r.value == Success(elapsed)
  {
    var timeout := TimeoutFuture(sleep);
    var counted := Count(req.number);
    var counter := CounterFuture(elapsed);
    r := Select(first, timeout, counter);
  }

  /** The `Timeout error` branch is dead: neither future can fail, so a call never fails. */
  lemma CallNeverFails(first: Side, sleep: Result<Unit>, elapsed: F64)
    ensures Select(first, TimeoutFuture(sleep), CounterFuture(elapsed)).Ok?
    ensures sleep.Err? && first == TimerSide ==>
      Select(first, TimeoutFuture(sleep), CounterFuture(elapsed)) == Ok(Failure)
  {
  }
}
