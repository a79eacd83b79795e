/** The channel to the reporter: who sends which message when, and the order in which they arrive. */
module Delivery {
  import opened Results
  import opened Sequences
  import opened Reporter

  /** The message that the sender, a target or the run itself, sent as its number-th. */
  datatype Envelope = Envelope(sender: nat, number: nat, message: Message)

  function Enveloped(sender: nat, messages: seq<Message>): (sent: seq<Envelope>)
    ensures |sent| == |messages|
    ensures forall k :: 0 <= k < |sent| ==> sent[k] == Envelope(sender, k, messages[k])
  {
    seq(|messages|, k requires 0 <= k < |messages| => Envelope(sender, k, messages[k]))
  }

  function MessagesOf(envelopes: seq<Envelope>): seq<Message> {
    Picked(envelopes, (e: Envelope) => Some(e.message))
  }

  // ---------------------------------------------------------------- schedules

  /**
   * What happens in a run, one event after another. A target's task either sends its number-th
   * message itself, or spawns the action that sends it.
   */
  datatype Event =
    | Spawns(sender: nat, number: nat)
    | Sends(byAction: bool, envelope: Envelope)

  /** The events of the targets' own tasks, as opposed to those of the actions. */
  predicate Own(event: Event) {
    event.Spawns? || !event.byAction
  }

  function SenderOf(event: Event): nat {
    if event.Spawns? then event.sender else event.envelope.sender
  }

  function NumberOf(event: Event): nat {
    if event.Spawns? then event.number else event.envelope.number
  }

  /**
   * A schedule of concurrent tasks: a target's task goes through its messages in their order, a
   * discovery it sends itself, and an action sends nothing before it is spawned.
   */
  ghost predicate Causal(trace: seq<Event>) {
    && (forall p, q | 0 <= p < q < |trace| && Own(trace[p]) && Own(trace[q]) ::
          SenderOf(trace[p]) == SenderOf(trace[q]) ==> NumberOf(trace[p]) <= NumberOf(trace[q]))
    && (forall q :: 0 <= q < |trace| && trace[q].Sends? && trace[q].envelope.message.Discovered? ==> Own(trace[q]))
    && (forall q :: 0 <= q < |trace| && !Own(trace[q]) ==>
          Spawns(SenderOf(trace[q]), NumberOf(trace[q])) in trace[..q])
  }

  /** The channel is first in, first out, so messages arrive in the order in which they are sent. */
  function Arrivals(trace: seq<Event>): seq<Envelope> {
    Picked(trace, (e: Event) => if e.Sends? then Some(e.envelope) else None)
  }

  /** A schedule for any messages that are to be sent. */
  ghost predicate Schedules(schedule: seq<Envelope> -> seq<Event>) {
    forall sent {:trigger schedule(sent)} ::
      Causal(schedule(sent)) && multiset(Arrivals(schedule(sent))) == multiset(sent)
  }

  /** Nothing that a target's task does after its discovery overtakes it. */
  ghost predicate KeepsCause(arrived: seq<Envelope>) {
    forall p, q | 0 <= p < q < |arrived| && arrived[p].sender == arrived[q].sender ::
      arrived[q].message.Discovered? ==> arrived[p].number <= arrived[q].number
  }

  lemma {:induction false} PrefixIsCausal(trace: seq<Event>, k: nat)
    requires Causal(trace) && k <= |trace|
    ensures Causal(trace[..k])
  {
    forall q | 0 <= q < k && !Own(trace[..k][q])
      ensures Spawns(SenderOf(trace[q]), NumberOf(trace[q])) in trace[..k][..q]
    {
      assert trace[..k][..q] == trace[..q];
    }
  }

  /** Whatever was sent before a discovery was sent, directly or by a spawned action, has a smaller number. */
  lemma {:induction false} SentEarlier(trace: seq<Event>, p: nat, q: nat)
    requires Causal(trace) && p < q < |trace| && trace[p].Sends? && trace[q].Sends?
    requires trace[q].envelope.message.Discovered? && trace[p].envelope.sender == trace[q].envelope.sender
    ensures trace[p].envelope.number <= trace[q].envelope.number
  {
    if !Own(trace[p]) {
      var spawn := Spawns(SenderOf(trace[p]), NumberOf(trace[p]));
      var k :| 0 <= k < p && trace[..p][k] == spawn;
      assert Own(trace[k]) && NumberOf(trace[k]) <= NumberOf(trace[q]);
    }
  }

  /** In the order of arrival cause comes before effect, whatever the schedule. */
  lemma {:induction false} ArrivalsKeepCause(trace: seq<Event>)
    requires Causal(trace)
    ensures KeepsCause(Arrivals(trace))
  {
    hide Causal, SenderOf, NumberOf, Picked;
    if trace == [] {
      PickedNothing<Event, Envelope>((e: Event) => if e.Sends? then Some(e.envelope) else None);
    } else {
      var rest, last := trace[..|trace| - 1], |trace| - 1;
      PrefixIsCausal(trace, last);
      ArrivalsKeepCause(rest);
      assert trace == rest + [trace[last]];
      PickedPush(rest, trace[last], (e: Event) => if e.Sends? then Some(e.envelope) else None);
      if trace[last].Sends? && trace[last].envelope.message.Discovered? {
        forall e | e in Arrivals(rest) && e.sender == trace[last].envelope.sender
          ensures e.number <= trace[last].envelope.number
        {
          PickedIn(rest, (e: Event) => if e.Sends? then Some(e.envelope) else None, e);
          var event :| event in rest && event.Sends? && event.envelope == e;
          var p :| 0 <= p < |rest| && rest[p] == event;
          SentEarlier(trace, p, last);
        }
      }
    }
  }

  // ---------------------------------------------------------------- discoveries come first

  /** No result of a target is received before the target's discovery. */
  ghost predicate DiscoveryFirst(arrived: seq<Envelope>) {
    forall p, q | 0 <= p < q < |arrived| && arrived[p].sender == arrived[q].sender ::
      arrived[q].message.Discovered? ==> !arrived[p].message.Finished?
  }

  /** A target announces its tests before it sends anything else, or never. */
  ghost predicate DiscoversFirst(messages: seq<Message>) {
    forall k :: 0 <= k < |messages| && messages[k].Discovered? ==> k == 0
  }

  /** Messages are told apart by sender and number, and only the first one can be a discovery. */
  ghost predicate WellNumbered(sent: seq<Envelope>, senders: nat) {
    && (forall e :: e in sent ==> e.sender < senders && (e.message.Discovered? ==> e.number == 0))
    && (forall a, b :: a in sent && b in sent && a.sender == b.sender && a.number == b.number ==> a == b)
  }

  /** In every schedule the reporter receives a target's discovery before all of its results. */
  lemma {:induction false} ArrivesDiscoveryFirst(sent: seq<Envelope>, senders: nat, trace: seq<Event>)
    requires WellNumbered(sent, senders)
    requires Causal(trace) && multiset(Arrivals(trace)) == multiset(sent)
    ensures DiscoveryFirst(Arrivals(trace))
  {
    hide Causal, Arrivals;
    var arrived := Arrivals(trace);
    ArrivalsKeepCause(trace);
    SameElements(arrived, sent);
    forall p, q | 0 <= p < q < |arrived| && arrived[p].sender == arrived[q].sender && arrived[q].message.Discovered?
      ensures !arrived[p].message.Finished?
    {
      assert arrived[p] in sent && arrived[q] in sent;
    }
  }

  lemma {:induction false} NextSender(sent: seq<Envelope>, senders: nat, messages: seq<Message>)
    requires WellNumbered(sent, senders) && DiscoversFirst(messages)
    ensures WellNumbered(sent + Enveloped(senders, messages), senders + 1)
    ensures forall e :: e in sent ==> e in sent + Enveloped(senders, messages)
    ensures messages != [] ==> Envelope(senders, 0, messages[0]) in sent + Enveloped(senders, messages)
  {
    var next := Enveloped(senders, messages);
    forall e
      ensures e in sent + next <==> e in sent || e in next
    {
    }
    if messages != [] {
      assert next[0] in next;
    }
  }

  lemma {:induction false} OpenedEnvelopes(sender: nat, messages: seq<Message>)
    ensures MessagesOf(Enveloped(sender, messages)) == messages
  {
    if messages != [] {
      var rest, last := messages[..|messages| - 1], |messages| - 1;
      OpenedEnvelopes(sender, rest);
      assert Enveloped(sender, messages)[..last] == Enveloped(sender, rest);
    }
  }

  lemma {:induction false} OpenedAppend(sent: seq<Envelope>, sender: nat, messages: seq<Message>)
    ensures MessagesOf(sent + Enveloped(sender, messages)) == MessagesOf(sent) + messages
  {
    PickedAppend(sent, Enveloped(sender, messages), (e: Envelope) => Some(e.message));
    OpenedEnvelopes(sender, messages);
  }
}
