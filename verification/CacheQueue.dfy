/** The send queue of the cache client: the writing part of `_worker_inner`. */
module CacheQueue {

  // ---- Lines ----

  /** A message line as the client puts it in the queue. */
  ghost predicate IsLine(s: string) {
    s != "" && s[|s| - 1] == '\n' && '\n' !in s[..|s| - 1]
  }

  /** Text made of whole lines. */
  ghost predicate Whole(s: string) {
    s == "" || s[|s| - 1] == '\n'
  }

  /** The lines of a text, the part after the last newline dropped. */
  ghost function LinesOf(s: string): seq<string> {
    if s == "" then [] else Prepend(s[0], LinesOf(s[1..]))
  }

  /** The lines of a text with one more character in front. */
  ghost function Prepend(c: char, lines: seq<string>): seq<string> {
    if c == '\n' then ["\n"] + lines
    else if lines == [] then []
    else [[c] + lines[0]] + lines[1..]
  }

  lemma PrependConcat(c: char, a: seq<string>, b: seq<string>)
    requires c == '\n' || a != []
    ensures Prepend(c, a + b) == Prepend(c, a) + b
  {
    if a != [] {
      assert (a + b)[0] == a[0] && (a + b)[1..] == a[1..] + b;
    }
  }

  lemma {:induction false} WholeHasLines(s: string)
    requires Whole(s) && s != ""
    ensures LinesOf(s) != []
  {
    if |s| > 1 {
      WholeHasLines(s[1..]);
    }
  }

  lemma {:induction false} LinesConcat(a: string, b: string)
    requires Whole(a)
    ensures LinesOf(a + b) == LinesOf(a) + LinesOf(b)
  {
    if a == "" {
      assert a + b == b;
    } else {
      hide Prepend;
      assert (a + b)[1..] == a[1..] + b && (a + b)[0] == a[0];
      LinesConcat(a[1..], b);
      if a[1..] != "" {
        WholeHasLines(a[1..]);
      }
      PrependConcat(a[0], LinesOf(a[1..]), LinesOf(b));
    }
  }

  lemma {:induction false} OneLine(s: string)
    requires IsLine(s)
    ensures LinesOf(s) == [s] && Whole(s)
  {
    if |s| > 1 {
      assert s[..|s| - 1][0] == s[0] && s[1..][..|s| - 2] == s[..|s| - 1][1..];
      OneLine(s[1..]);
      assert s[0] != '\n' && [s[0]] + s[1..] == s;
      assert LinesOf(s) == [[s[0]] + s[1..]];
    } else {
      assert s == "\n" && s[1..] == "";
    }
  }

  ghost function AllLines(items: seq<string>): seq<string> {
    if items == [] then [] else AllLines(items[..|items| - 1]) + LinesOf(items[|items| - 1])
  }

  ghost predicate AllWhole(items: seq<string>) {
    forall i :: 0 <= i < |items| ==> Whole(items[i])
  }

  lemma {:induction false} AllLinesConcat(a: seq<string>, b: seq<string>)
    ensures AllLines(a + b) == AllLines(a) + AllLines(b)
  {
    if b == [] {
      assert a + b == a;
    } else {
      hide LinesOf;
      var n := |b| - 1;
      AllLinesConcat(a, b[..n]);
      assert (a + b)[..|a + b| - 1] == a + b[..n] && (a + b)[|a + b| - 1] == b[n];
      Regroup(AllLines(a), AllLines(b[..n]), LinesOf(b[n]));
    }
  }

  lemma Regroup(a: seq<string>, b: seq<string>, c: seq<string>)
    ensures a + (b + c) == a + b + c
  {
  }

  /** The text of several queue items, sent in one go. */
  ghost function Text(items: seq<string>): string {
    if items == [] then "" else Text(items[..|items| - 1]) + items[|items| - 1]
  }

  lemma {:induction false} TextKeepsLines(items: seq<string>)
    requires AllWhole(items)
    ensures Whole(Text(items)) && LinesOf(Text(items)) == AllLines(items)
  {
    if items != [] {
      var n := |items| - 1;
      TextKeepsLines(items[..n]);
      LinesConcat(Text(items[..n]), items[n]);
    }
  }

  // ---- The queue as a value ----

  const BATCH := 10

  /** `unfinished` is the task count of the queue; `sent` are the texts that
      were sent successfully. */
  datatype Queue = Queue(items: seq<string>, unfinished: int, sent: seq<string>)

  /** `between` are the lines that other threads put while a batch is being sent. */
  datatype Op = Put(line: string) | Batch(succeeds: bool, between: seq<string>)

  ghost function BatchSize(q: Queue): nat {
    if |q.items| < BATCH then |q.items| else BATCH
  }

  ghost function Apply(q: Queue, op: Op): Queue {
    match op
    case Put(line) => Queue(q.items + [line], q.unfinished + 1, q.sent)
    case Batch(succeeds, between) =>
      var n := BatchSize(q);
      var text, rest := Text(q.items[..n]), q.items[n..] + between;
      if succeeds then Queue(rest, q.unfinished + |between| - n, q.sent + [text])
      else Queue(rest + [text], q.unfinished + |between| - n + 1, q.sent)
  }

  ghost function Run(ops: seq<Op>): Queue {
    if ops == [] then Queue([], 0, []) else Apply(Run(ops[..|ops| - 1]), ops[|ops| - 1])
  }

  ghost function LinesPut(ops: seq<Op>): seq<string> {
    if ops == [] then []
    else
      var op := ops[|ops| - 1];
      LinesPut(ops[..|ops| - 1]) + if op.Put? then [op.line] else op.between
  }

  ghost predicate AreLines(lines: seq<string>) {
    forall i :: 0 <= i < |lines| ==> IsLine(lines[i])
  }

  ghost predicate PutsLines(ops: seq<Op>) {
    forall i :: 0 <= i < |ops| ==> if ops[i].Put? then IsLine(ops[i].line) else AreLines(ops[i].between)
  }

  lemma {:induction false} LinesAreTheirLines(lines: seq<string>)
    requires AreLines(lines)
    ensures AllWhole(lines) && AllLines(lines) == lines
  {
    if lines != [] {
      hide LinesOf, IsLine, Whole;
      var n := |lines| - 1;
      assert AreLines(lines[..n]);
      LinesAreTheirLines(lines[..n]);
      OneLine(lines[n]);
      assert lines[..n] + [lines[n]] == lines;
      assert forall i :: 0 <= i < n ==> lines[..n][i] == lines[i];
    }
  }

  /** One batch, sent or not, neither loses nor duplicates a line. */
  lemma BatchConserves(q: Queue, succeeds: bool, between: seq<string>)
    requires AllWhole(q.items) && AreLines(between)
    ensures
      var r := Apply(q, Batch(succeeds, between));
      && AllWhole(r.items)
      && multiset(AllLines(r.items)) + multiset(AllLines(r.sent))
         == multiset(AllLines(q.items)) + multiset(AllLines(q.sent)) + multiset(between)
  {
    var n := BatchSize(q);
    var head, tail := q.items[..n], q.items[n..];
    BatchLines(q, succeeds, between);
    hide Apply, AllLines, AllWhole, AreLines, BatchSize;
    Rebalance(AllLines(head), AllLines(tail), between, AllLines(q.sent));
  }

  lemma Rebalance(head: seq<string>, tail: seq<string>, between: seq<string>, sent: seq<string>)
    ensures multiset(tail + between) + multiset(sent + head)
      == multiset(head + tail) + multiset(sent) + multiset(between)
    ensures multiset(tail + between + head) + multiset(sent)
      == multiset(head + tail) + multiset(sent) + multiset(between)
  {
  }

  lemma BatchLines(q: Queue, succeeds: bool, between: seq<string>)
    requires AllWhole(q.items) && AreLines(between)
    ensures
      var n, r := BatchSize(q), Apply(q, Batch(succeeds, between));
      var head, tail := AllLines(q.items[..n]), AllLines(q.items[n..]);
      && AllWhole(r.items)
      && AllLines(q.items) == head + tail
      && AllLines(r.items) == (if succeeds then tail + between else tail + between + head)
      && AllLines(r.sent) == (if succeeds then AllLines(q.sent) + head else AllLines(q.sent))
  {
    LinesAreTheirLines(between);
    hide AllLines, LinesOf, AreLines;
    var n := BatchSize(q);
    var head, tail := q.items[..n], q.items[n..];
    var text := Text(head);
    assert q.items == head + tail;
    AllLinesConcat(head, tail);
    AllLinesConcat(tail, between);
    TextKeepsLines(head);
    WholeAfterBatch(head, tail, between, text);
    OneItem(text);
    hide Text, AllWhole;
    if succeeds {
      AllLinesConcat(q.sent, [text]);
    } else {
      AllLinesConcat(tail + between, [text]);
    }
  }

  lemma WholeAfterBatch(head: seq<string>, tail: seq<string>, between: seq<string>, text: string)
    requires AllWhole(head + tail) && AllWhole(between) && Whole(text)
    ensures AllWhole(tail + between) && AllWhole(tail + between + [text])
  {
    forall i | 0 <= i < |tail| ensures Whole(tail[i]) {
      assert (head + tail)[|head| + i] == tail[i];
    }
  }

  lemma OneItem(text: string)
    ensures AllLines([text]) == LinesOf(text)
  {
    var one := [text];
    assert one[..0] == [] && [] + LinesOf(text) == LinesOf(text);
  }

  lemma PutAdds(q: Queue, line: string)
    requires AllWhole(q.items) && IsLine(line)
    ensures AllWhole(Apply(q, Put(line)).items) && AllLines(Apply(q, Put(line)).items) == AllLines(q.items) + [line]
  {
    hide AllLines, LinesOf, IsLine, Whole;
    OneLine(line);
    AllLinesConcat(q.items, [line]);
    OneItem(line);
    var items := q.items + [line];
    forall i | 0 <= i < |items| ensures Whole(items[i]) {
      assert items[i] == if i < |q.items| then q.items[i] else line;
    }
  }

  /** After any run of puts and batches, failed ones included, every line put is
      still queued or was in a successful send, exactly once; and the count of
      unfinished tasks is the length of the queue. */
  lemma {:induction false} NothingLostOrDuplicated(ops: seq<Op>)
    requires PutsLines(ops)
    ensures
      var q := Run(ops);
      && AllWhole(q.items) && q.unfinished == |q.items|
      && multiset(AllLines(q.items)) + multiset(AllLines(q.sent)) == multiset(LinesPut(ops))
  {
    if ops != [] {
      hide LinesOf, IsLine, Whole;
      var n := |ops| - 1;
      NothingLostOrDuplicated(ops[..n]);
      var q := Run(ops[..n]);
      match ops[n]
      case Put(line) =>
        PutAdds(q, line);
      case Batch(succeeds, between) =>
        BatchConserves(q, succeeds, between);
        assert LinesPut(ops) == LinesPut(ops[..n]) + between;
    }
  }

  /** A failed batch goes behind the lines it did not take, and those put while it
      was being sent. */
  lemma FailureSendsToTheBack(q: Queue, between: seq<string>)
    requires AllWhole(q.items) && AreLines(between)
    ensures
      var n := BatchSize(q);
      AllLines(Apply(q, Batch(false, between)).items)
      == AllLines(q.items[n..]) + between + AllLines(q.items[..n])
  {
    BatchLines(q, false, between);
  }

  /** So it keeps the order of the lines if it took the whole queue and nothing was
      put meanwhile. */
  lemma FailureKeepsOrderOfShortQueue(q: Queue)
    requires AllWhole(q.items) && |q.items| <= BATCH
    ensures AllLines(Apply(q, Batch(false, [])).items) == AllLines(q.items)
  {
    FailureSendsToTheBack(q, []);
    hide AllLines, Apply;
    var n := BatchSize(q);
    assert q.items[..n] == q.items && q.items[n..] == [];
    assert AllLines(q.items[n..]) == [] by {
      NoLines();
    }
    assert [] + [] + AllLines(q.items) == AllLines(q.items);
  }

  lemma NoLines()
    ensures AllLines([]) == []
  {
  }

  /** `k` batches that are sent, with nothing put meanwhile. */
  ghost function Sent(q: Queue, k: nat): Queue {
    if k == 0 then q else Apply(Sent(q, k - 1), Batch(true, []))
  }

  /** How many items `k` batches take. */
  function Taken(n: nat, k: nat): (m: nat)
    ensures m <= n
  {
    if 10 * k < n then 10 * k else n
  }

  /** `r` has sent the texts of the first `n` items of `q`, in order, and has the rest. */
  ghost predicate HasSent(q: Queue, r: Queue, n: nat)
    requires n <= |q.items|
  {
    r.items == q.items[n..] && AllLines(r.sent) == AllLines(q.sent) + AllLines(q.items[..n])
  }

  /** Each takes ten items, or all that are left, from the front of the queue. */
  lemma {:induction false} SendingDrains(q: Queue, k: nat)
    requires AllWhole(q.items)
    ensures HasSent(q, Sent(q, k), Taken(|q.items|, k))
    ensures 10 * k >= |q.items| ==> Sent(q, k).items == []
  {
    hide HasSent, AllWhole, Apply;
    if k == 0 {
      NothingSent(q);
    } else {
      SendingDrains(q, k - 1);
      OneMoreSent(q, Sent(q, k - 1), Taken(|q.items|, k - 1));
      assert Sent(q, k) == Apply(Sent(q, k - 1), Batch(true, []));
      TakenStep(|q.items|, k);
    }
    assert 10 * k >= |q.items| ==> Taken(|q.items|, k) == |q.items|;
    AllTaken(q, Sent(q, k), Taken(|q.items|, k));
  }

  lemma TakenStep(n: nat, k: nat)
    requires k > 0
    ensures Taken(n, k) == if Taken(n, k - 1) + 10 < n then Taken(n, k - 1) + 10 else n
  {
  }

  lemma AllTaken(q: Queue, r: Queue, n: nat)
    requires n <= |q.items| && HasSent(q, r, n)
    ensures n == |q.items| ==> r.items == []
  {
  }

  lemma NothingSent(q: Queue)
    ensures HasSent(q, q, 0)
  {
    NoLines();
    assert q.items[..0] == [] && AllLines(q.sent) + [] == AllLines(q.sent);
  }

  lemma OneMoreSent(q: Queue, before: Queue, n: nat)
    requires AllWhole(q.items) && n <= |q.items| && HasSent(q, before, n)
    ensures HasSent(q, Apply(before, Batch(true, [])), if n + 10 < |q.items| then n + 10 else |q.items|)
  {
    hide LinesOf, AllLines, Text;
    var size := BatchSize(before);
    var head := q.items[n..n + size];
    assert before.items[..size] == head && before.items[size..] + [] == q.items[n + size..];
    assert q.items[..n + size] == q.items[..n] + head;
    AllLinesConcat(q.items[..n], head);
    BatchLines(before, true, []);
    Regroup(AllLines(q.sent), AllLines(q.items[..n]), AllLines(head));
  }

  // ---- The client ----

  class Sender {
    var items: seq<string>
    var unfinished: nat
    ghost var sent: seq<string>

    constructor ()
      ensures State() == Queue([], 0, [])
    {
      items, unfinished, sent := [], 0, [];
    }

    ghost function State(): Queue
      reads this
    {
      Queue(items, unfinished, sent)
    }

    method PutLine(line: string)
      modifies this
      ensures State() == Apply(old(State()), Put(line))
    {
      items := items + [line];
      unfinished := unfinished + 1;
    }

    /** Bunches up to ten items together and tries to send them.  A failed text
        is counted as done and put in the queue again. */
    method SendBatch(succeeds: bool, between: seq<string>)
      requires unfinished == |items|
      modifies this
      ensures State() == Apply(old(State()), Batch(succeeds, between))
      ensures unfinished == |items|
    {
      var tosend, itemcount := TakeBatch();
      // sending; other threads put lines meanwhile
      items, unfinished := items + between, unfinished + |between|;
      if succeeds {
        sent := sent + [tosend];
        TasksDone(itemcount);
      } else {
        TasksDone(itemcount);
        PutLine(tosend);
      }
    }

    method TakeBatch() returns (tosend: string, itemcount: nat)
      modifies this`items
      ensures itemcount == BatchSize(old(State()))
      ensures tosend == Text(old(items)[..itemcount]) && items == old(items)[itemcount..]
    {
      tosend, itemcount := "", 0;
      for k := 0 to BATCH
        invariant itemcount == k <= |old(items)|
        invariant items == old(items)[itemcount..] && tosend == Text(old(items)[..itemcount])
      {
        if items == [] {
          break;
        }
        assert old(items)[..k + 1][..k] == old(items)[..k];
        tosend, items := tosend + items[0], items[1..];
        itemcount := itemcount + 1;
      }
    }

    method TasksDone(n: nat)
      requires n <= unfinished
      modifies this`unfinished
      ensures unfinished == old(unfinished) - n
    {
      for k := 0 to n
        invariant unfinished == old(unfinished) - k
      {
        unfinished := unfinished - 1;
      }
    }
  }
}
