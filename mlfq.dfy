/** The multi-level feedback queue scheduler of
    multi_level_feedback_queue.py: processes wait in a queue; each of the
    first `num_queues - 1` levels gives every waiting process one round-robin
    turn of at most that level's time slice, and the last level runs what is
    left first come, first served. Times are whole numbers. */
module MultiLevelFeedbackQueue {
  import opened Sequences

  /** The time fields of one process, as a value. */
  datatype Times = Times(arrival: int, burst: int, waiting: int, turnaround: int, completion: int)

  /** How long a process may run in one turn: to the end (first come, first
      served) or at most one time slice (round robin). */
  datatype Budget = ToCompletion | Quantum(size: int)

  /** The clock when the process starts its turn: it waits for the process
      to arrive. */
  function StartTime(t: int, j: Times): (s: int)
    ensures s >= t && s >= j.arrival
    ensures s == t || s == j.arrival
  {
    if t < j.arrival then j.arrival else t
  }

  /** `update_waiting_time` at clock `t`: the time since the process last
      stopped is added to its waiting time, nothing else changes. */
  function Waited(t: int, j: Times): (r: Times)
    ensures r.waiting - j.waiting == t - j.completion
    ensures r.(waiting := j.waiting) == j
  {
    j.(waiting := j.waiting + t - j.completion)
  }

  /** The turn ends with work left over. */
  predicate Preempted(j: Times, b: Budget) {
    b.Quantum? && j.burst > b.size
  }

  /** Waiting time minus remaining burst minus last stop: every turn keeps it. */
  function Balance(j: Times): int {
    j.waiting - j.burst - j.completion
  }

  /** A process that has run to its end. */
  predicate Finished(j: Times) {
    j.burst == 0 && j.turnaround == j.completion - j.arrival
  }

  /** One turn of a process that reaches the head of the queue at clock `t`:
      the new clock and the process's new times. */
  function Step(t: int, j: Times, b: Budget): (r: (int, Times))
    ensures r.1.arrival == j.arrival && r.1.completion == r.0
    ensures Balance(r.1) == Balance(j)
    ensures Preempted(j, b) ==> r.1.burst == j.burst - b.size && r.1.turnaround == j.turnaround
    ensures !Preempted(j, b) ==> Finished(r.1)
    ensures j.burst >= 0 && (b.Quantum? ==> b.size >= 0) ==>
      r.0 >= t && r.0 >= j.arrival && r.1.burst >= 0
  {
    var s := StartTime(t, j);
    var w := Waited(s, j);
    if Preempted(j, b) then
      (s + b.size, w.(burst := j.burst - b.size, completion := s + b.size))
    else
      (s + j.burst, w.(burst := 0, completion := s + j.burst, turnaround := s + j.burst - j.arrival))
  }

  /** The first `n` processes of `js` served one turn each, in order,
      starting at clock `t`: the final clock and their new times. */
  function Run(t: int, js: seq<Times>, b: Budget, n: nat): (r: (int, seq<Times>))
    requires n <= |js|
    ensures |r.1| == n
  {
    if n == 0 then (t, [])
    else
      var (t1, done) := Run(t, js, b, n - 1);
      var (t2, j) := Step(t1, js[n - 1], b);
      (t2, done + [j])
  }

  /** Of the first `n` processes, those whose turn is cut short by `b`
      (`preempted`) or those that finish, in order. */
  function Pick<P>(ps: seq<P>, js: seq<Times>, b: Budget, preempted: bool, n: nat): (r: seq<P>)
    requires n <= |ps| && n <= |js|
    ensures |r| <= n
  {
    if n == 0 then []
    else Pick(ps, js, b, preempted, n - 1) + (if Preempted(js[n - 1], b) == preempted then [ps[n - 1]] else [])
  }

  /** No process has negative work left. */
  predicate NonNegativeBursts(js: seq<Times>) {
    forall i :: 0 <= i < |js| ==> js[i].burst >= 0
  }

  /** A run keeps each process's arrival and balance, finishes exactly the
      processes whose burst fits the budget and takes one slice off the
      others. */
  lemma {:induction false} RunEffect(t: int, js: seq<Times>, b: Budget, n: nat)
    requires n <= |js|
    ensures forall i :: 0 <= i < n ==>
      && Run(t, js, b, n).1[i].arrival == js[i].arrival
      && Balance(Run(t, js, b, n).1[i]) == Balance(js[i])
      && (Preempted(js[i], b) ==> Run(t, js, b, n).1[i].burst == js[i].burst - b.size)
      && (!Preempted(js[i], b) ==> Finished(Run(t, js, b, n).1[i]))
  {
    if n > 0 {
      RunEffect(t, js, b, n - 1);
      var prev := Run(t, js, b, n - 1).1;
      assert forall i :: 0 <= i < n - 1 ==> Run(t, js, b, n).1[i] == prev[i];
    }
  }

  /** With no negative burst or slice the clock never goes back, each
      process stops no earlier than the one served before it and no later
      than the final clock, and no burst becomes negative. */
  lemma {:induction false} RunMonotone(t: int, js: seq<Times>, b: Budget, n: nat)
    requires n <= |js| && NonNegativeBursts(js) && (b.Quantum? ==> b.size >= 0)
    ensures Run(t, js, b, n).0 >= t
    ensures forall i :: 0 <= i < n ==> Run(t, js, b, n).1[i].burst >= 0
    ensures forall i :: 0 <= i < n ==> Run(t, js, b, n).1[i].completion <= Run(t, js, b, n).0
    ensures forall i, k :: 0 <= i < k < n ==>
      Run(t, js, b, n).1[i].completion <= Run(t, js, b, n).1[k].completion
  {
    if n > 0 {
      RunMonotone(t, js, b, n - 1);
      var prev := Run(t, js, b, n - 1).1;
      assert forall i :: 0 <= i < n - 1 ==> Run(t, js, b, n).1[i] == prev[i];
    }
  }

  /** A picked process is one of the first `n`, with the budget verdict
      asked for. */
  lemma {:induction false} PickFrom<P>(ps: seq<P>, js: seq<Times>, b: Budget, preempted: bool, n: nat, x: P)
    requires n <= |ps| && n <= |js| && x in Pick(ps, js, b, preempted, n)
    ensures exists i :: 0 <= i < n && ps[i] == x && Preempted(js[i], b) == preempted
  {
    if x !in Pick(ps, js, b, preempted, n - 1) {
      assert ps[n - 1] == x && Preempted(js[n - 1], b) == preempted;
    } else {
      PickFrom(ps, js, b, preempted, n - 1, x);
    }
  }

  /** Picking from a sequence without repetitions gives one without
      repetitions. */
  lemma {:induction false} PickDistinct<P>(ps: seq<P>, js: seq<Times>, b: Budget, preempted: bool, n: nat)
    requires n <= |ps| && n <= |js| && Distinct(ps)
    ensures Distinct(Pick(ps, js, b, preempted, n))
  {
    if n > 0 {
      PickDistinct(ps, js, b, preempted, n - 1);
      var prev := Pick(ps, js, b, preempted, n - 1);
      if Preempted(js[n - 1], b) == preempted {
        forall x | x in prev
          ensures x != ps[n - 1]
        {
          PickFrom(ps, js, b, preempted, n - 1, x);
          var i :| 0 <= i < n - 1 && ps[i] == x && Preempted(js[i], b) == preempted;
          assert Apart(ps, i, n - 1);
        }
        DistinctAppend(prev, ps[n - 1]);
      } else {
        assert Pick(ps, js, b, preempted, n) == prev;
      }
    }
  }

  /** Each of the first `n` processes is picked with its own budget verdict. */
  lemma {:induction false} PickAll<P>(ps: seq<P>, js: seq<Times>, b: Budget, n: nat, i: nat)
    requires n <= |ps| && n <= |js| && i < n
    ensures ps[i] in Pick(ps, js, b, Preempted(js[i], b), n)
  {
    if i < n - 1 {
      PickAll(ps, js, b, n - 1, i);
    }
  }

  /** Without a time slice no turn is cut short. */
  lemma {:induction false} PickNone<P>(ps: seq<P>, js: seq<Times>, n: nat)
    requires n <= |ps| && n <= |js|
    ensures Pick(ps, js, ToCompletion, true, n) == []
  {
    if n > 0 {
      PickNone(ps, js, n - 1);
    }
  }

  /** Only processes of the round are picked. */
  lemma PickWithin<P>(ps: seq<P>, js: seq<Times>, b: Budget, preempted: bool, n: nat)
    requires n <= |ps| && n <= |js|
    ensures forall x :: x in Pick(ps, js, b, preempted, n) ==> x in ps
  {
    forall x | x in Pick(ps, js, b, preempted, n)
      ensures x in ps
    {
      PickFrom(ps, js, b, preempted, n, x);
    }
  }

  /** Every process of the round is picked exactly once. */
  lemma {:induction false} PickCount<P>(ps: seq<P>, js: seq<Times>, b: Budget, n: nat)
    requires n <= |ps| && n <= |js|
    ensures |Pick(ps, js, b, true, n)| + |Pick(ps, js, b, false, n)| == n
  {
    if n > 0 {
      PickCount(ps, js, b, n - 1);
    }
  }

  /** What a round means for the process at position `i`: its balance is
      kept, and it is picked as preempted or it is picked as finished and
      has finished. */
  lemma TurnAt<P>(ps: seq<P>, t: int, js: seq<Times>, b: Budget, i: nat)
    requires |ps| == |js| && i < |ps|
    ensures Balance(Run(t, js, b, |ps|).1[i]) == Balance(js[i])
    ensures || ps[i] in Pick(ps, js, b, true, |ps|)
            || (ps[i] in Pick(ps, js, b, false, |ps|) && Finished(Run(t, js, b, |ps|).1[i]))
  {
    RunEffect(t, js, b, |ps|);
    PickAll(ps, js, b, |ps|, i);
  }

  /** No process of a sequence without repetitions is picked both as
      preempted and as finished. */
  lemma PickApart<P>(ps: seq<P>, js: seq<Times>, b: Budget, n: nat)
    requires n <= |ps| && n <= |js| && Distinct(ps)
    ensures forall x :: x in Pick(ps, js, b, true, n) ==> x !in Pick(ps, js, b, false, n)
  {
    forall x | x in Pick(ps, js, b, true, n)
      ensures x !in Pick(ps, js, b, false, n)
    {
      PickFrom(ps, js, b, true, n, x);
      var i :| 0 <= i < n && ps[i] == x && Preempted(js[i], b);
      forall j | 0 <= j < n && j != i
        ensures ps[j] != x
      {
        assert Apart(ps, i, j);
      }
      if x in Pick(ps, js, b, false, n) {
        PickFrom(ps, js, b, false, n, x);
      }
    }
  }

  /** The line of waiting processes after the first `n` turns of a round
      over `ps`: each turn takes the head of the line and puts it back at
      the end when its turn is cut short. */
  function Line<P>(ps: seq<P>, js: seq<Times>, b: Budget, n: nat): seq<P>
    requires n <= |ps| && n <= |js|
  {
    if n == 0 then ps
    else
      var line := Line(ps, js, b, n - 1);
      (if line == [] then [] else line[1..]) + (if Preempted(js[n - 1], b) then [ps[n - 1]] else [])
  }

  /** After `n` turns the line holds the processes not served yet, in
      order, followed by the preempted ones, in the order they were served. */
  lemma {:induction false} LineShape<P>(ps: seq<P>, js: seq<Times>, b: Budget, n: nat)
    requires n <= |ps| && n <= |js|
    ensures Line(ps, js, b, n) == ps[n..] + Pick(ps, js, b, true, n)
  {
    if n == 0 {
      assert ps[0..] == ps;
    } else {
      LineShape(ps, js, b, n - 1);
      var line := Line(ps, js, b, n - 1);
      assert line == [ps[n - 1]] + (ps[n..] + Pick(ps, js, b, true, n - 1));
    }
  }

  /** The head of the line is the next process of the round. */
  lemma LineHead<P>(ps: seq<P>, js: seq<Times>, b: Budget, k: nat)
    requires k < |ps| && k < |js|
    ensures Line(ps, js, b, k) != [] && Line(ps, js, b, k)[0] == ps[k]
  {
    LineShape(ps, js, b, k);
  }

  /** After a round the line holds exactly the preempted processes, and
      they, the processes finished before and those finished in the round
      are all different. */
  lemma RoundEnd<P>(q: seq<P>, f: seq<P>, js: seq<Times>, b: Budget, waiting: seq<P>)
    requires |q| <= |js| && Distinct(q + f)
    requires waiting == Line(q, js, b, |q|)
    ensures waiting == Pick(q, js, b, true, |q|)
    ensures Distinct(waiting + (f + Pick(q, js, b, false, |q|)))
  {
    LineShape(q, js, b, |q|);
    assert q[|q|..] == [];
    var n := |q|;
    assert waiting == Pick(q, js, b, true, n);
    var finished := Pick(q, js, b, false, n);
    DistinctSplit(q, f);
    PickDistinct(q, js, b, true, n);
    PickDistinct(q, js, b, false, n);
    PickApart(q, js, b, n);
    forall x | x in f
      ensures x !in finished
    {
      if x in finished {
        PickFrom(q, js, b, false, n, x);
      }
    }
    DistinctConcat(f, finished);
    forall x | x in waiting
      ensures x !in f + finished
    {
      PickFrom(q, js, b, true, n, x);
    }
    DistinctConcat(waiting, f + finished);
  }

  /** One turn of first come, first served: the head of the line is the
      next process, and it joins the finished ones. */
  lemma QueueStep<P>(q: seq<P>, f: seq<P>, k: nat, waiting: seq<P>, finished: seq<P>)
    requires k < |q| && waiting == q[k..] && finished == f + q[..k]
    ensures waiting != [] && waiting[0] == q[k] && waiting[1..] == q[k + 1..]
    ensures finished + [q[k]] == f + q[..k + 1]
  {
    assert q[..k + 1] == q[..k] + [q[k]];
  }

  /** At the end of first come, first served every process has joined the
      finished ones, and none of them occurs twice. */
  lemma QueueEnd<P>(q: seq<P>, f: seq<P>, waiting: seq<P>, finished: seq<P>)
    requires Distinct(q + f) && waiting == [] && waiting == q[|q|..] && finished == f + q[..|q|]
    ensures finished == f + q && Distinct(waiting + finished)
  {
    assert q[..|q|] == q;
    assert waiting + finished == f + q;
    DistinctSwap(q, f);
  }

  class Process {
    const name: string
    const arrivalTime: int
    var burstTime: int
    var waitingTime: int
    var turnaroundTime: int
    var completionTime: int

    constructor (name: string, arrivalTime: int, burstTime: int)
      ensures this.name == name && this.arrivalTime == arrivalTime && this.burstTime == burstTime
      ensures waitingTime == 0 && turnaroundTime == 0 && completionTime == 0
    {
      this.name := name;
      this.arrivalTime := arrivalTime;
      this.burstTime := burstTime;
      waitingTime := 0;
      turnaroundTime := 0;
      completionTime := 0;
    }
  }

  /** The time fields of a process object. */
  function Snap(p: Process): Times
    reads p
  {
    Times(p.arrivalTime, p.burstTime, p.waitingTime, p.turnaroundTime, p.completionTime)
  }

  /** The time fields of each process of a list. */
  function Snaps(ps: seq<Process>): (r: seq<Times>)
    reads set p | p in ps
    ensures |r| == |ps| && forall i {:trigger Snap(ps[i])} :: 0 <= i < |ps| ==> r[i] == Snap(ps[i])
  {
    seq(|ps|, i reads set p | p in ps requires 0 <= i < |ps| => Snap(ps[i]))
  }

  /** `calculate_waiting_times`: the waiting time of each process, in the
      order given. */
  function WaitingTimes(processes: seq<Process>): (r: seq<int>)
    reads set p | p in processes
    ensures |r| == |processes|
    ensures forall i :: 0 <= i < |r| ==> r[i] == Snap(processes[i]).waiting
  {
    seq(|processes|, i reads set p | p in processes requires 0 <= i < |processes| => processes[i].waitingTime)
  }

  /** `calculate_completion_times`: the completion time of each process. */
  function CompletionTimes(processes: seq<Process>): (r: seq<int>)
    reads set p | p in processes
    ensures |r| == |processes|
    ensures forall i :: 0 <= i < |r| ==> r[i] == Snap(processes[i]).completion
  {
    seq(|processes|, i reads set p | p in processes requires 0 <= i < |processes| => processes[i].completionTime)
  }

  /** `calculate_turnaround_times`: the turnaround time of each process. */
  function TurnaroundTimes(processes: seq<Process>): (r: seq<int>)
    reads set p | p in processes
    ensures |r| == |processes|
    ensures forall i :: 0 <= i < |r| ==> r[i] == Snap(processes[i]).turnaround
  {
    seq(|processes|, i reads set p | p in processes requires 0 <= i < |processes| => processes[i].turnaroundTime)
  }

  /** For finished processes the turnaround time is the completion time less
      the arrival time, and a process that started with no waiting and no
      stop has waited its completion time less its original burst. */
  lemma {:induction false} FinishedTimes(processes: seq<Process>, bursts: seq<int>)
    requires |bursts| == |processes|
    requires forall i :: 0 <= i < |processes| ==> Finished(Snap(processes[i]))
    requires forall i :: 0 <= i < |processes| ==> Balance(Snap(processes[i])) == -bursts[i]
    ensures forall i :: 0 <= i < |processes| ==>
      && TurnaroundTimes(processes)[i] == CompletionTimes(processes)[i] - processes[i].arrivalTime
      && WaitingTimes(processes)[i] == CompletionTimes(processes)[i] - bursts[i]
  {
    forall i | 0 <= i < |processes|
      ensures TurnaroundTimes(processes)[i] == CompletionTimes(processes)[i] - processes[i].arrivalTime
      ensures WaitingTimes(processes)[i] == CompletionTimes(processes)[i] - bursts[i]
    {
      assert Finished(Snap(processes[i])) && Balance(Snap(processes[i])) == -bursts[i];
    }
  }

  /** One round of turns: the processes in queue order, their times before
      the round, the budget of each turn and the clock at the start. */
  datatype Round = Round(queue: seq<Process>, before: seq<Times>, budget: Budget, start: int)

  /** What a round means for each of its processes: its balance is kept,
      and it is picked as preempted or it is picked as finished and has
      finished; nothing outside the round is picked. */
  twostate lemma TurnEffects(r: Round)
    requires |r.before| == |r.queue|
    requires forall i :: 0 <= i < |r.queue| ==> old(Snap(r.queue[i])) == r.before[i]
    requires forall i {:trigger Snap(r.queue[i])} :: 0 <= i < |r.queue| ==>
      Snap(r.queue[i]) == Run(r.start, r.before, r.budget, |r.queue|).1[i]
    ensures forall p :: p in r.queue ==> Balance(Snap(p)) == old(Balance(Snap(p)))
    ensures forall p :: p in r.queue ==>
      || p in Pick(r.queue, r.before, r.budget, true, |r.queue|)
      || (p in Pick(r.queue, r.before, r.budget, false, |r.queue|) && Finished(Snap(p)))
  {
    var n := |r.queue|;
    forall p | p in r.queue
      ensures Balance(Snap(p)) == old(Balance(Snap(p)))
      ensures || p in Pick(r.queue, r.before, r.budget, true, n)
              || (p in Pick(r.queue, r.before, r.budget, false, n) && Finished(Snap(p)))
    {
      var i :| 0 <= i < n && r.queue[i] == p;
      TurnAt(r.queue, r.start, r.before, r.budget, i);
    }
  }

  class MLFQ {
    const numQueues: int
    const timeSlices: seq<int>
    var queue: seq<Process>
    var currentTime: int
    var finishQueue: seq<Process>

    /** No process object is queued twice, or both waiting and finished. */
    ghost predicate Valid()
      reads this
    {
      Distinct(queue + finishQueue)
    }

    constructor (numQueues: int, timeSlices: seq<int>, queue: seq<Process>, currentTime: int)
      requires Distinct(queue)
      ensures Valid()
      ensures this.numQueues == numQueues && this.timeSlices == timeSlices
      ensures this.queue == queue && this.currentTime == currentTime && finishQueue == []
    {
      this.numQueues := numQueues;
      this.timeSlices := timeSlices;
      this.queue := queue;
      this.currentTime := currentTime;
      finishQueue := [];
      assert queue + [] == queue;
    }

    /** `calculate_sequence`: the names of the processes in the order they
        finished. */
    function CalculateSequence(): (names: seq<string>)
      reads this
      ensures |names| == |finishQueue|
      ensures forall i :: 0 <= i < |names| ==> names[i] == finishQueue[i].name
    {
      var done := finishQueue;
      seq(|done|, i requires 0 <= i < |done| => done[i].name)
    }

    /** `update_waiting_time`. */
    method UpdateWaitingTime(process: Process)
      modifies process
      ensures Snap(process) == Waited(currentTime, old(Snap(process)))
    {
      process.waitingTime := process.waitingTime + currentTime - process.completionTime;
    }

    /** The start of a turn: the clock waits for the process to arrive, and
        the process is credited the time it waited. */
    method Admit(process: Process)
      modifies this`currentTime, process
      ensures currentTime == StartTime(old(currentTime), old(Snap(process)))
      ensures Snap(process) == Waited(currentTime, old(Snap(process)))
    {
      if currentTime < process.arrivalTime {
        currentTime := process.arrivalTime;
      }
      UpdateWaitingTime(process);
    }

    /** A turn that runs the process to its end. */
    method RunToEnd(process: Process)
      modifies this`currentTime, process
      ensures currentTime == old(currentTime) + old(process.burstTime)
      ensures Snap(process) == old(Snap(process)).(burst := 0, completion := currentTime,
        turnaround := currentTime - process.arrivalTime)
    {
      currentTime := currentTime + process.burstTime;
      process.burstTime := 0;
      process.completionTime := currentTime;
      process.turnaroundTime := currentTime - process.arrivalTime;
    }

    /** A turn cut short after one time slice. */
    method RunSlice(process: Process, timeSlice: int)
      modifies this`currentTime, process
      ensures currentTime == old(currentTime) + timeSlice
      ensures Snap(process) == old(Snap(process)).(burst := old(process.burstTime) - timeSlice,
        completion := currentTime)
    {
      currentTime := currentTime + timeSlice;
      process.burstTime := process.burstTime - timeSlice;
      process.completionTime := currentTime;
    }

    /** One turn of `process` at the head of the queue under budget `b`. */
    method Serve(process: Process, b: Budget) returns (preempted: bool)
      modifies this`currentTime, process
      ensures preempted == Preempted(old(Snap(process)), b)
      ensures (currentTime, Snap(process)) == Step(old(currentTime), old(Snap(process)), b)
    {
      Admit(process);
      preempted := b.Quantum? && process.burstTime > b.size;
      if preempted {
        RunSlice(process, b.size);
      } else {
        RunToEnd(process);
      }
    }

    /** `first_come_first_served`: every queued process, in queue order, runs
        to its end and moves to the finish queue. */
    method FirstComeFirstServed() returns (done: seq<Process>)
      requires Valid()
      modifies this, queue
      ensures Valid()
      ensures queue == [] && finishQueue == old(finishQueue) + old(queue) && done == finishQueue
      ensures currentTime == Run(old(currentTime), old(Snaps(queue)), ToCompletion, |old(queue)|).0
      ensures forall i {:trigger Snap(old(queue)[i])} :: 0 <= i < |old(queue)| ==>
        Snap(old(queue)[i]) == Run(old(currentTime), old(Snaps(queue)), ToCompletion, |old(queue)|).1[i]
    {
      ghost var q0, f0, t0, js0 := queue, finishQueue, currentTime, Snaps(queue);
      DistinctSplit(q0, f0);
      ghost var k := 0;
      var waiting, finished := queue, finishQueue;
      while waiting != []
        invariant k + |waiting| == |q0|
        invariant waiting == q0[k..] && finished == f0 + q0[..k]
        invariant currentTime == Run(t0, js0, ToCompletion, k).0
        invariant forall i {:trigger Snap(q0[i])} :: 0 <= i < k ==> Snap(q0[i]) == Run(t0, js0, ToCompletion, k).1[i]
        invariant forall i {:trigger Snap(q0[i])} :: k <= i < |q0| ==> Snap(q0[i]) == js0[i]
        decreases |waiting|
      {
        QueueStep(q0, f0, k, waiting, finished);
        var process := waiting[0];
        waiting := waiting[1..];
        DistinctAt(q0, k);
        var _ := Serve(process, ToCompletion);
        finished := finished + [process];
        k := k + 1;
      }
      QueueEnd(q0, f0, waiting, finished);
      queue, finishQueue := waiting, finished;
      return finishQueue;
    }

    /** `round_robin`: each process queued at the start gets one turn of at
        most `timeSlice`, in queue order; a process with work left goes to
        the back of the queue, the others move to the finish queue. */
    method RoundRobin(timeSlice: int) returns (finished: seq<Process>, rest: seq<Process>)
      requires Valid()
      modifies this, queue
      ensures Valid()
      ensures finished == Pick(old(queue), old(Snaps(queue)), Quantum(timeSlice), false, |old(queue)|)
      ensures queue == Pick(old(queue), old(Snaps(queue)), Quantum(timeSlice), true, |old(queue)|)
      ensures rest == queue && finishQueue == old(finishQueue) + finished
      ensures currentTime == Run(old(currentTime), old(Snaps(queue)), Quantum(timeSlice), |old(queue)|).0
      ensures forall i {:trigger Snap(old(queue)[i])} :: 0 <= i < |old(queue)| ==>
        Snap(old(queue)[i]) == Run(old(currentTime), old(Snaps(queue)), Quantum(timeSlice), |old(queue)|).1[i]
    {
      ghost var q0, f0, t0, js0 := queue, finishQueue, currentTime, Snaps(queue);
      DistinctSplit(q0, f0);
      var b := Quantum(timeSlice);
      var waiting := queue;
      finished := [];
      for k := 0 to |queue|
        invariant waiting == Line(q0, js0, b, k)
        invariant finished == Pick(q0, js0, b, false, k) && finishQueue == f0
        invariant currentTime == Run(t0, js0, b, k).0
        invariant forall i {:trigger Snap(q0[i])} :: 0 <= i < |q0| ==>
          Snap(q0[i]) == if i < k then Run(t0, js0, b, k).1[i] else js0[i]
      {
        LineHead(q0, js0, b, k);
        var process := waiting[0];
        waiting := waiting[1..];
        DistinctAt(q0, k);
        var preempted := Serve(process, b);
        if preempted {
          waiting := waiting + [process];
        } else {
          finished := finished + [process];
        }
      }
      RoundEnd(q0, f0, js0, b, waiting);
      queue := waiting;
      finishQueue := finishQueue + finished;
      rest := queue;
    }

    /** One level of the feedback queue: a round-robin round with
        `timeSlice`, whose preempted processes become the queue. Processes
        that were already finished are left alone. */
    method Level(timeSlice: int)
      requires Valid()
      modifies this, queue
      ensures Valid() && |queue| + |finishQueue| == old(|queue| + |finishQueue|)
      ensures |old(finishQueue)| <= |finishQueue| && finishQueue[..|old(finishQueue)|] == old(finishQueue)
      ensures forall p :: p in queue ==> p in old(queue)
      ensures forall p :: p in finishQueue ==> p in old(finishQueue) || p in old(queue)
      ensures forall p :: p in old(queue) ==> Balance(Snap(p)) == old(Balance(Snap(p)))
      ensures forall p :: p in old(queue) ==> p in queue || (p in finishQueue && Finished(Snap(p)))
      ensures forall p :: p in old(finishQueue) ==> p in finishQueue && Snap(p) == old(Snap(p))
      ensures queue == Pick(old(queue), old(Snaps(queue)), Quantum(timeSlice), true, |old(queue)|)
      ensures finishQueue == old(finishQueue) + Pick(old(queue), old(Snaps(queue)), Quantum(timeSlice), false, |old(queue)|)
      ensures currentTime == Run(old(currentTime), old(Snaps(queue)), Quantum(timeSlice), |old(queue)|).0
      ensures forall i {:trigger Snap(old(queue)[i])} :: 0 <= i < |old(queue)| ==>
        Snap(old(queue)[i]) == Run(old(currentTime), old(Snaps(queue)), Quantum(timeSlice), |old(queue)|).1[i]
    {
      ghost var q0, js0, t0 := queue, Snaps(queue), currentTime;
      DistinctSplit(queue, finishQueue);
      var _, rest := RoundRobin(timeSlice);
      queue := rest;
      var b := Quantum(timeSlice);
      PickWithin(q0, js0, b, true, |q0|);
      PickWithin(q0, js0, b, false, |q0|);
      PickCount(q0, js0, b, |q0|);
      TurnEffects(Round(q0, js0, b, t0));
    }

    /** `multi_level_feedback_queue`: one round-robin round per level but
        the last, each with that level's time slice, then first come, first
        served for the processes left. Every process queued at the start
        ends up finished, in the finish queue after the ones finished
        before, with its balance of waiting time, remaining burst and last
        stop unchanged. */
    method MultiLevelFeedbackQueue() returns (done: seq<Process>)
      requires Valid() && numQueues - 1 <= |timeSlices|
      modifies this, queue
      ensures Valid() && queue == [] && done == finishQueue
      ensures |finishQueue| == |old(finishQueue)| + |old(queue)|
      ensures finishQueue[..|old(finishQueue)|] == old(finishQueue)
      ensures forall p :: p in finishQueue <==> p in old(finishQueue) || p in old(queue)
      ensures forall p :: p in old(queue) ==> Finished(Snap(p)) && Balance(Snap(p)) == old(Balance(Snap(p)))
    {
      ghost var q0, f0 := queue, finishQueue;
      var levels := if numQueues > 1 then numQueues - 1 else 0;
      for i := 0 to levels
        invariant Valid() && |queue| + |finishQueue| == |q0| + |f0|
        invariant |f0| <= |finishQueue| && finishQueue[..|f0|] == f0
        invariant forall p :: p in queue ==> p in q0
        invariant forall p :: p in finishQueue ==> p in f0 || p in q0
        invariant forall p :: p in q0 ==>
          && Balance(Snap(p)) == old(Balance(Snap(p)))
          && (p in queue || (p in finishQueue && Finished(Snap(p))))
      {
        assert forall j :: 0 <= j < |queue| ==> queue[j] in q0;
        Level(timeSlices[i]);
      }
      assert forall j :: 0 <= j < |queue| ==> queue[j] in q0;
      ghost var last, js, t := queue, Snaps(queue), currentTime;
      label lastLevel:
      done := FirstComeFirstServed();
      PickNone(last, js, |last|);
      TurnEffects@lastLevel(Round(last, js, ToCompletion, t));
    }
  }
}
