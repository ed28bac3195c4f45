/**
One client slot's message queue in the chat server of Lab 5, and the thread that sends from it:
the mutex is held from the look at the queue until the queue has been emptied, and every send
may accept only part of what it is given.
*/
module ChatSender {
  import opened ChatFraming
  import opened Runs

  const BUFFER_LEN: nat := 1024

  datatype Message = Message(from: nat, text: string)

  /** From Checking to Emptying the thread holds the mutex of its queue. */
  datatype Sender =
    | NotStarted
    | Ready
    | Checking
    | Waiting
    | Signalled
    | Sending(rest: string)
    | Emptying
    | Stopped

  /** accepted is what the socket has taken; history is every message ever pushed. */
  datatype Queue = Queue(queue: seq<string>, sender: Sender, accepted: string, history: seq<Message>)

  datatype Act = Start | Acquire | Look | SpuriousWakeup | Send(len: nat) | Pop | More | Stop

  predicate MutexFree(q: Queue) {
    !q.sender.Checking? && !q.sender.Sending? && !q.sender.Emptying?
  }

  /** Push under the mutex, and signal: a waiting sender wakes. */
  function Deliver(q: Queue, m: Message): Queue {
    q.(queue := q.queue + [m.text], history := q.history + [m],
    sender := if q.sender == Waiting then Signalled else q.sender)
  }

  predicate Can(q: Queue, act: Act) {
    match act
    case Start => q.sender == NotStarted
    case Acquire => q.sender == Ready || q.sender == Signalled
    case Look => q.sender == Checking
    case SpuriousWakeup => q.sender == Waiting
    case Send(len) => q.sender.Sending? && q.sender.rest != "" && len <= BUFFER_LEN && len <= |q.sender.rest|
    case Pop => q.sender == Sending("") && q.queue != []
    case More => q.sender == Emptying
    case Stop => q.sender != NotStarted
  }

  /** Go on with the first message, or, if there is none, to the given state. */
  function FirstOr(q: Queue, idle: Sender): Queue {
    q.(sender := if q.queue == [] then idle else Sending(q.queue[0]))
  }

  function Do(q: Queue, act: Act): Queue
    requires Can(q, act)
  {
    match act
    case Start => q.(sender := Ready)
    case Acquire => q.(sender := Checking)
    case Look => FirstOr(q, Waiting)
    case SpuriousWakeup => q.(sender := Signalled)
    case Send(len) =>
      q.(sender := Sending(q.sender.rest[len..]), accepted := q.accepted + q.sender.rest[..len])
    case Pop => q.(sender := Emptying, queue := q.queue[1..])
    case More => FirstOr(q, Ready)
    case Stop => q.(sender := Stopped)
  }

  // ---------------------------------------------------------------------------------------
  // No byte is lost, repeated or reordered
  // ---------------------------------------------------------------------------------------

  function Texts(ms: seq<Message>): (ts: seq<string>)
    ensures |ts| == |ms| && forall i :: 0 <= i < |ms| ==> ts[i] == ms[i].text
  {
    seq(|ms|, i requires 0 <= i < |ms| => ms[i].text)
  }

  function Pushed(q: Queue): string {
    Join(Texts(q.history))
  }

  /** The text of the queue that the socket has not accepted yet. */
  function Unsent(q: Queue): string {
    if q.sender.Sending? && q.queue != [] then q.sender.rest + Join(q.queue[1..]) else Join(q.queue)
  }

  /** What the socket has accepted and what is unsent make up the messages pushed (a cancelled
      sender has sent a prefix of them), and a sender that waits has an empty queue. */
  ghost predicate QueueFits(q: Queue) {
    && (if q.sender == Stopped then q.accepted <= Pushed(q) else q.accepted + Unsent(q) == Pushed(q))
    && (q.sender.Sending? ==> q.queue != [])
    && (q.sender == Waiting ==> q.queue == [])
  }

  lemma {:induction false} JoinConcat(a: seq<string>, b: seq<string>)
    ensures Join(a + b) == Join(a) + Join(b)
  {
    if b == [] {
      assert a + b == a;
    } else {
      var n := |b| - 1;
      assert (a + b)[..|a| + n] == a + b[..n];
      JoinConcat(a, b[..n]);
    }
  }

  lemma JoinFirst(q: seq<string>)
    requires q != []
    ensures Join(q) == q[0] + Join(q[1..])
  {
    JoinConcat([q[0]], q[1..]);
    JoinSnoc([], q[0]);
    assert [] + [q[0]] == [q[0]] && [q[0]] + q[1..] == q;
  }

  lemma PushedSnoc(q: Queue, m: Message)
    ensures Pushed(Deliver(q, m)) == Pushed(q) + m.text
  {
    JoinSnoc(Texts(q.history), m.text);
    assert Texts(q.history + [m]) == Texts(q.history) + [m.text];
  }

  lemma DeliverFits(q: Queue, m: Message)
    requires QueueFits(q) && MutexFree(q)
    ensures QueueFits(Deliver(q, m))
  {
    PushedSnoc(q, m);
    JoinSnoc(q.queue, m.text);
    if q.sender != Stopped {
      assert q.accepted + (Join(q.queue) + m.text) == (q.accepted + Join(q.queue)) + m.text;
    }
  }

  lemma FirstOrFits(q: Queue, idle: Sender)
    requires QueueFits(q) && (q.sender.Checking? || q.sender.Emptying?) && (idle.Waiting? || idle.Ready?)
    ensures QueueFits(FirstOr(q, idle))
  {
    if q.queue != [] {
      JoinFirst(q.queue);
    }
  }

  lemma SendFits(q: Queue, len: nat)
    requires QueueFits(q) && Can(q, Send(len))
    ensures QueueFits(Do(q, Send(len)))
  {
    var rest, more := q.sender.rest, Join(q.queue[1..]);
    assert rest == rest[..len] + rest[len..];
    assert (q.accepted + rest[..len]) + (rest[len..] + more) == q.accepted + (rest + more);
  }

  lemma StopFits(q: Queue)
    requires QueueFits(q)
    ensures QueueFits(q.(sender := Stopped))
  {
    if q.sender != Stopped {
      assert q.accepted <= q.accepted + Unsent(q);
    }
  }

  lemma DoFits(q: Queue, act: Act)
    requires QueueFits(q) && Can(q, act)
    ensures QueueFits(Do(q, act))
  {
    match act
    case Look => FirstOrFits(q, Waiting);
    case More => FirstOrFits(q, Ready);
    case Send(len) => SendFits(q, len);
    case Pop => assert "" + Join(q.queue[1..]) == Join(q.queue[1..]);
    case Stop => StopFits(q);
    case _ =>
  }

  // ---------------------------------------------------------------------------------------
  // Whatever is queued can be sent in full
  // ---------------------------------------------------------------------------------------

  /** The steps of the sending thread alone. */
  ghost function Acts(): (Queue, Act, Queue) -> bool {
    (q, act, r) => Can(q, act) && r == Do(q, act)
  }

  ghost function Stage(q: Queue): nat {
    match q.sender
    case Sending(_) => 0
    case Checking => 1
    case Emptying => 1
    case _ => 2
  }

  ghost predicate Active(q: Queue) {
    q.sender != NotStarted && q.sender != Stopped
  }

  /** A running sender can, by itself, get its whole queue accepted by the socket. */
  lemma {:induction false} QueueCanBeDrained(q: Queue) returns (r: Queue)
    requires QueueFits(q) && Active(q)
    ensures Reaches(Acts(), q, r) && r.history == q.history
    ensures r.queue == [] && r.accepted == Pushed(q)
    decreases |q.queue|, Stage(q), if q.sender.Sending? then |q.sender.rest| else 0
  {
    if q.queue == [] {
      r := q;
      StayPut(Acts(), q);
      assert q.accepted + "" == q.accepted;
    } else {
      var act := match q.sender
        case Ready => Acquire
        case Signalled => Acquire
        case Checking => Look
        case Emptying => More
        case Sending(rest) => if rest == "" then Pop else Send(1)
        case _ => SpuriousWakeup;
      DoFits(q, act);
      r := QueueCanBeDrained(Do(q, act));
      OneStep(Acts(), q, act, Do(q, act));
      Compose(Acts(), q, Do(q, act), r);
    }
  }

  // ---------------------------------------------------------------------------------------
  // The loop over one message, on the queue itself
  // ---------------------------------------------------------------------------------------

  function Min(a: nat, b: nat): nat {
    if a < b then a else b
  }

  class MessageQueue {
    var queue: seq<string>
    var accepted: string

    constructor ()
      ensures queue == [] && accepted == ""
    {
      queue, accepted := [], "";
    }

    method Push(text: string)
      modifies this`queue
      ensures queue == old(queue) + [text]
    {
      queue := queue + [text];
    }

    /** Sends the first message; takes[k] is how much the k-th send accepts, at most.  The
        message leaves the queue once the socket has accepted all of it. */
    method SendFront(takes: seq<nat>) returns (rest: string)
      requires queue != []
      modifies this
      ensures accepted + rest == old(accepted) + old(queue)[0]
      ensures queue == if rest == "" then old(queue)[1..] else old(queue)
      ensures old(queue)[0] != "" && rest == old(queue)[0] ==> forall k :: 0 <= k < |takes| ==> takes[k] == 0
    {
      var messageBuffer := queue[0];
      var n, k := |messageBuffer|, 0;
      var transLen := if BUFFER_LEN > n then n else BUFFER_LEN;
      while n > 0 && k < |takes|
        invariant n == |messageBuffer| && k <= |takes| && transLen == Min(BUFFER_LEN, n)
        invariant accepted + messageBuffer == old(accepted) + old(queue)[0]
        invariant queue == old(queue)
        invariant n <= |old(queue)[0]|
        invariant n == |old(queue)[0]| ==> n == 0 || forall m :: 0 <= m < k ==> takes[m] == 0
        decreases |takes| - k
      {
        var len := Min(takes[k], transLen);
        accepted := accepted + messageBuffer[..len];
        n := n - len;
        messageBuffer := messageBuffer[len..];
        transLen := if BUFFER_LEN > n then n else BUFFER_LEN;
        k := k + 1;
      }
      rest := messageBuffer;
      if n == 0 {
        queue := queue[1..];
      }
    }
  }
}
