/**
 thread/semaphore.c: two threads hand numbers over through one variable, guarded by two semaphores. A step is
 one semaphore operation or one access to num. inputs are the numbers that scanf delivers, one for each
 iteration. The sum is an int, and signed overflow is undefined: past it nothing is said about the sum.
 */
module Handoff {
  import opened ByteTypes
  import opened Sequences

  /** Lines 33 to 35 and 45 to 47. */
  datatype Pc = Waiting | Inside | Posting | Finished

  datatype Accumulated = Total(v: int32) | Undefined

  /** sum += num. */
  function Plus(sum: Accumulated, num: int32): Accumulated {
    if sum.Total? && Fits(sum.v + num) then Total(sum.v + num) else Undefined
  }

  /** puts and takes count the values put in num and taken from it. */
  datatype Threads = Threads(producer: Pc, consumer: Pc, sem1: nat, sem2: nat, num: int32, sum: Accumulated,
                             puts: nat, takes: nat)

  const INITIAL := Threads(Waiting, Waiting, 0, 1, 0, Total(0), 0, 0)

  datatype Action = WaitEmpty | Put | PostFull | EndProducer | WaitFull | Take | PostEmpty | EndConsumer

  /** The action's thread is at it, and a wait finds its semaphore positive. */
  predicate Enabled(inputs: seq<int32>, s: Threads, a: Action) {
    match a
    case WaitEmpty => s.producer.Waiting? && s.puts < |inputs| && s.sem2 > 0
    case Put => s.producer.Inside? && s.puts < |inputs|
    case PostFull => s.producer.Posting?
    case EndProducer => s.producer.Waiting? && s.puts >= |inputs|
    case WaitFull => s.consumer.Waiting? && s.takes < |inputs| && s.sem1 > 0
    case Take => s.consumer.Inside?
    case PostEmpty => s.consumer.Posting?
    case EndConsumer => s.consumer.Waiting? && s.takes >= |inputs|
  }

  function Do(inputs: seq<int32>, s: Threads, a: Action): Threads
    requires Enabled(inputs, s, a)
  {
    match a
    case WaitEmpty => s.(producer := Inside, sem2 := s.sem2 - 1)
    case Put => s.(producer := Posting, num := inputs[s.puts], puts := s.puts + 1)
    case PostFull => s.(producer := Waiting, sem1 := s.sem1 + 1)
    case EndProducer => s.(producer := Finished)
    case WaitFull => s.(consumer := Inside, sem1 := s.sem1 - 1)
    case Take => s.(consumer := Posting, sum := Plus(s.sum, s.num), takes := s.takes + 1)
    case PostEmpty => s.(consumer := Waiting, sem2 := s.sem2 + 1)
    case EndConsumer => s.(consumer := Finished)
  }

  ghost predicate IsRun(inputs: seq<int32>, run: seq<Threads>) {
    && |run| > 0 && run[0] == INITIAL
    && forall k :: 0 <= k < |run| - 1 ==> Next(inputs, run[k], run[k + 1])
  }

  ghost predicate Next(inputs: seq<int32>, s: Threads, s': Threads) {
    exists a :: Enabled(inputs, s, a) && s' == Do(inputs, s, a)
  }

  function Between(pc: Pc): nat { if pc.Inside? || pc.Posting? then 1 else 0 }

  /** Every partial sum of the first k inputs is a 32-bit integer. */
  ghost predicate SumsFit(inputs: seq<int32>, k: nat)
    requires k <= |inputs|
  {
    forall j :: 0 <= j <= k ==> Fits(Sum(inputs[..j]))
  }

  /** The sum of the first k inputs as C computes it. */
  ghost function SumOf(inputs: seq<int32>, k: nat): Accumulated
    requires k <= |inputs|
  {
    if SumsFit(inputs, k) then Total(Sum(inputs[..k])) else Undefined
  }

  lemma SumOfOneMore(inputs: seq<int32>, k: nat)
    requires k < |inputs|
    ensures SumOf(inputs, k + 1) == Plus(SumOf(inputs, k), inputs[k])
  {
    SumOneMore(inputs, k);
  }

  ghost predicate Inv(inputs: seq<int32>, s: Threads) {
    && s.sem1 + s.sem2 + Between(s.producer) + Between(s.consumer) == 1
    && s.takes <= s.puts <= |inputs|
    && s.puts - s.takes == s.sem1 + (if s.producer.Posting? then 1 else 0) + (if s.consumer.Inside? then 1 else 0)
    && (s.puts > s.takes ==> s.num == inputs[s.takes])
    && s.sum == SumOf(inputs, s.takes)
    && (s.producer.Inside? ==> s.puts < |inputs|)
    && (s.producer.Finished? ==> s.puts == |inputs|)
    && (s.consumer.Finished? ==> s.takes == |inputs|)
  }

  lemma {:induction false} RunInv(inputs: seq<int32>, run: seq<Threads>, k: nat)
    requires IsRun(inputs, run) && k < |run|
    ensures Inv(inputs, run[k])
  {
    if k == 0 {
    } else {
      RunInv(inputs, run, k - 1);
      assert Next(inputs, run[k - 1], run[k]);
      if run[k - 1].takes < |inputs| { SumOfOneMore(inputs, run[k - 1].takes); }
    }
  }

  /** In every run the semaphores and the threads between wait and post make up exactly one permission. */
  lemma OnePermission(inputs: seq<int32>, run: seq<Threads>, k: nat)
    requires IsRun(inputs, run) && k < |run|
    ensures run[k].sem1 + run[k].sem2 + Between(run[k].producer) + Between(run[k].consumer) == 1
    ensures !(run[k].producer.Inside? && run[k].consumer.Inside?)
  {
    RunInv(inputs, run, k);
  }

  /**
   Each value is taken exactly once, before the next overwrites it: a take finds in num the first input
   not taken yet, and a put happens only when all earlier inputs were taken.
   */
  lemma TakenOnceEach(inputs: seq<int32>, run: seq<Threads>, k: nat)
    requires IsRun(inputs, run) && k < |run|
    ensures Enabled(inputs, run[k], Take) ==> run[k].takes < |inputs| && run[k].num == inputs[run[k].takes]
    ensures Enabled(inputs, run[k], Put) ==> run[k].takes == run[k].puts
    ensures run[k].takes <= |inputs| && (run[k].sum.Total? <==> SumsFit(inputs, run[k].takes))
    ensures run[k].sum.Total? ==> run[k].sum.v == Sum(inputs[..run[k].takes])
  {
    RunInv(inputs, run, k);
  }

  /** No deadlock: a state in which nothing can be done is one where both threads have finished. */
  lemma NeverStuck(inputs: seq<int32>, run: seq<Threads>, k: nat)
    requires IsRun(inputs, run) && k < |run|
    ensures (forall a :: !Enabled(inputs, run[k], a)) <==> run[k].producer.Finished? && run[k].consumer.Finished?
    ensures run[k].consumer.Finished? ==>
              (run[k].sum.Total? <==> SumsFit(inputs, |inputs|)) && (run[k].sum.Total? ==> run[k].sum.v == Sum(inputs))
  {
    RunInv(inputs, run, k);
    assert inputs[..|inputs|] == inputs;
    var s := run[k];
    if !(s.producer.Finished? && s.consumer.Finished?) {
      var a := Possible(inputs, s);
      assert Enabled(inputs, s, a);
    }
  }

  /** An action that is possible. */
  function Possible(inputs: seq<int32>, s: Threads): (a: Action)
    requires Inv(inputs, s) && !(s.producer.Finished? && s.consumer.Finished?)
    ensures Enabled(inputs, s, a)
  {
    if s.producer.Inside? then Put
    else if s.producer.Posting? then PostFull
    else if s.producer.Waiting? && s.puts == |inputs| then EndProducer
    else if s.consumer.Inside? then Take
    else if s.consumer.Posting? then PostEmpty
    else if s.consumer.Waiting? && s.takes == |inputs| then EndConsumer
    else if s.producer.Waiting? && s.sem2 > 0 then WaitEmpty
    else WaitFull
  }

  // ----- The two threads under any schedule

  /** What is left to do for a thread that has finished done of n values. */
  function Left(pc: Pc, n: nat, done: nat): int {
    3 * (n - done) + match pc case Waiting => 1 case Inside => 0 case Posting => 2 case Finished => 0
  }

  /**
   The program: whenever several steps are possible any of them may come next. It never blocks with a thread
   unfinished, it ends, and what it prints does not depend on the schedule: the sum of all inputs, if and only
   if no partial sum leaves 32 bits.
   */
  method Run(inputs: seq<int32>) returns (printed: Accumulated)
    ensures printed.Total? <==> SumsFit(inputs, |inputs|)
    ensures printed.Total? ==> printed.v == Sum(inputs)
  {
    var producer, consumer := Waiting, Waiting;
    var sem1, sem2, num: int32 := 0, 1, 0;
    var i, j, sum: int32 := 0, 0, 0;
    while !(producer.Finished? && consumer.Finished?)
      invariant 0 <= i && 0 <= j && 0 <= sem1 && 0 <= sem2
      invariant Inv(inputs, Threads(producer, consumer, sem1, sem2, num, Total(sum), i, j))
      decreases Left(producer, |inputs|, i) + Left(consumer, |inputs|, j)
    {
      ghost var _ := Possible(inputs, Threads(producer, consumer, sem1, sem2, num, Total(sum), i, j));
      if {
        case producer.Waiting? && i < |inputs| && sem2 > 0 => sem2, producer := sem2 - 1, Inside;
        case producer.Inside? => num, producer, i := inputs[i], Posting, i + 1;
        case producer.Posting? => sem1, producer := sem1 + 1, Waiting;
        case producer.Waiting? && i >= |inputs| => producer := Finished;
        case consumer.Waiting? && j < |inputs| && sem1 > 0 => sem1, consumer := sem1 - 1, Inside;
        case consumer.Inside? =>
          SumOfOneMore(inputs, j);
          if !Fits(sum + num) { return Undefined; }
          sum, consumer, j := sum + num, Posting, j + 1;
        case consumer.Posting? => sem2, consumer := sem2 + 1, Waiting;
        case consumer.Waiting? && j >= |inputs| => consumer := Finished;
      }
    }
    assert inputs[..j] == inputs;
    return Total(sum);
  }
}
