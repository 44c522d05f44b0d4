/** Every interleaving of the producer thread and the consumer of `stream_rag_response`
    (generation/streamer.py). The producer runs the generator; its check of the cancel flag and its
    put are separate steps. The consumer waits for the executor thread that takes an item for it, so
    an item can be taken and not yet handled; it may be cancelled at any `await`. */
module StreamRuns {
  import opened Options
  import opened Streamer

  datatype ProducerPhase =
    | Idle
    | Generating | Holding(token: Token) | Cleared(token: Token)
    | Throwing | Closing | Finished

  datatype GeneratorState = Open | Ended(how: GeneratorEnd) | Abandoned

  datatype ConsumerPhase =
    | Preparing | Refusing
    | Awaiting | Sending(token: Token)
    | Finishing | Attributing | FollowingUp
    | Reporting
    | Returned | ReturnedNone
    | Killed(awaiting: bool)

  datatype FrameKind = TokenFrame(token: Token) | Done | Attribution | FollowUps | ErrorFrame

  /** A frame whose `send` returned; `delivered` unless a `RuntimeError` was dropped. */
  datatype Frame = Frame(kind: FrameKind, delivered: bool)

  /** `generated` is every token the generator has yielded, `produced` every token put on the queue. */
  datatype Producer = Producer(phase: ProducerPhase, generator: GeneratorState,
                               generated: seq<Token>, produced: seq<Token>)

  /** `handed` is an item taken off the queue and not handled yet; `put` is every item ever put on it,
      `handled` how many of them have been handled. */
  datatype Channel = Channel(queue: seq<Item>, handed: Option<Item>, put: seq<Item>, handled: nat)

  /** `closed`: the consumer has taken the closing `None`. */
  datatype Consumer = Consumer(phase: ConsumerPhase, response: seq<Token>, frames: seq<Frame>,
                               cancelled: bool, closed: bool)

  datatype State = State(producer: Producer, channel: Channel, consumer: Consumer)

  datatype Event =
    | Prepared(ready: bool)
    | PreparationFails
    | Yield(token: Token)
    | GeneratorEnds(how: GeneratorEnd)
    | CheckCancel
    | PutToken
    | PutError
    | PutEnd
    | Take
    | Handle
    | LoopFails
    | CitationsFail
    | Send(outcome: SendOutcome)
    | Extra(attempt: Option<SendOutcome>)
    | Kill

  function Initial(): State {
    State(Producer(Idle, Open, [], []), Channel([], None, [], 0), Consumer(Preparing, [], [], false, false))
  }

  /** The frame that the consumer is sending, if it is sending a mandatory one. */
  function Outgoing(phase: ConsumerPhase): Option<FrameKind> {
    match phase
    case Refusing => Some(ErrorFrame)
    case Sending(token) => Some(TokenFrame(token))
    case Finishing => Some(Done)
    case Reporting => Some(ErrorFrame)
    case _ => None
  }

  predicate Over(phase: ConsumerPhase) {
    phase.Returned? || phase.ReturnedNone? || phase.Killed?
  }

  predicate Enabled(s: State, e: Event) {
    var producer, consumer := s.producer.phase, s.consumer.phase;
    match e
    case Prepared(_) => consumer.Preparing?
    case PreparationFails => consumer.Preparing?
    case Yield(_) => producer.Generating?
    case GeneratorEnds(_) => producer.Generating?
    case CheckCancel => producer.Holding?
    case PutToken => producer.Cleared?
    case PutError => producer.Throwing?
    case PutEnd => producer.Closing?
    case Take => s.channel.handed.None? && s.channel.queue != [] && (consumer.Awaiting? || consumer == Killed(true))
    case Handle => consumer.Awaiting? && s.channel.handed.Some?
    case LoopFails => consumer.Awaiting? && s.channel.handed.None?
    case CitationsFail => consumer.Finishing?
    case Send(_) => Outgoing(consumer).Some?
    case Extra(_) => consumer.Attributing? || consumer.FollowingUp?
    case Kill => !Over(consumer)
  }

  function ProducerAfter(s: State, e: Event): Producer
    requires Enabled(s, e)
  {
    var p := s.producer;
    match e
    case Prepared(ready) => if ready then p.(phase := Generating) else p
    case Yield(token) => p.(phase := Holding(token), generated := p.generated + [token])
    case GeneratorEnds(how) => p.(phase := if how == Failed then Throwing else Closing, generator := Ended(how))
    case CheckCancel =>
      if s.consumer.cancelled then p.(phase := Closing, generator := Abandoned) else p.(phase := Cleared(p.phase.token))
    case PutToken => p.(phase := Generating, produced := p.produced + [p.phase.token])
    case PutError => p.(phase := Closing)
    case PutEnd => p.(phase := Finished)
    case _ => p
  }

  function Put(channel: Channel, item: Item): Channel {
    channel.(queue := channel.queue + [item], put := channel.put + [item])
  }

  function ChannelAfter(s: State, e: Event): Channel
    requires Enabled(s, e)
  {
    match e
    case PutToken => Put(s.channel, Token(s.producer.phase.token))
    case PutError => Put(s.channel, Error)
    case PutEnd => Put(s.channel, End)
    case Take => s.channel.(handed := Some(s.channel.queue[0]), queue := s.channel.queue[1..])
    case Handle => s.channel.(handed := None, handled := s.channel.handled + 1)
    case _ => s.channel
  }

  function HandleItem(c: Consumer, item: Item): Consumer {
    match item
    case Token(token) => c.(response := c.response + [token], phase := Sending(token))
    case Error => c.(cancelled := true, phase := Reporting)
    case End => c.(phase := Finishing, closed := true)
  }

  /** Where the consumer is after the send of a mandatory frame has returned. */
  function AfterSend(phase: ConsumerPhase): ConsumerPhase {
    match phase
    case Sending(_) => Awaiting
    case Finishing => Attributing
    case _ => ReturnedNone
  }

  function SendFrame(c: Consumer, kind: FrameKind, outcome: SendOutcome): Consumer {
    if outcome == Raised then
      c.(cancelled := c.cancelled || c.phase.Sending?, phase := if c.phase.Reporting? then ReturnedNone else Reporting)
    else
      c.(frames := c.frames + [Frame(kind, outcome == Delivered)], phase := AfterSend(c.phase))
  }

  /** Attribution and follow-ups: nothing to send, or a send; their exceptions are only logged. */
  function SendExtra(c: Consumer, kind: FrameKind, attempt: Option<SendOutcome>, next: ConsumerPhase): Consumer {
    if attempt.None? || attempt.value == Raised then c.(phase := next)
    else c.(frames := c.frames + [Frame(kind, attempt.value == Delivered)], phase := next)
  }

  function ConsumerAfter(s: State, e: Event): Consumer
    requires Enabled(s, e)
  {
    var c := s.consumer;
    match e
    case Prepared(ready) => c.(phase := if ready then Awaiting else Refusing)
    case PreparationFails => c.(phase := Reporting)
    case Handle => HandleItem(c, s.channel.handed.value)
    case LoopFails => c.(cancelled := true, phase := Reporting)
    case CitationsFail => c.(phase := Reporting)
    case Send(outcome) => SendFrame(c, Outgoing(c.phase).value, outcome)
    case Extra(attempt) =>
      if c.phase.Attributing? then SendExtra(c, Attribution, attempt, FollowingUp)
      else SendExtra(c, FollowUps, attempt, Returned)
    case Kill => c.(phase := Killed(c.phase.Awaiting? && s.channel.handed.None?))
    case _ => c
  }

  function Step(s: State, e: Event): State
    requires Enabled(s, e)
  {
    State(ProducerAfter(s, e), ChannelAfter(s, e), ConsumerAfter(s, e))
  }

  ghost predicate Run(s: State, es: seq<Event>)
    decreases |es|
  {
    es == [] || (Enabled(s, es[0]) && Run(Step(s, es[0]), es[1..]))
  }

  ghost function After(s: State, es: seq<Event>): State
    requires Run(s, es)
    decreases |es|
  {
    if es == [] then s else After(Step(s, es[0]), es[1..])
  }

  // ---------------------------------------------------------------- the invariant

  /** The token that the generator has yielded and the producer has not put yet. */
  function InHand(phase: ProducerPhase): seq<Token> {
    if phase.Holding? || phase.Cleared? then [phase.token] else []
  }

  /** What the producer has put after the tokens. */
  function Tail(p: Producer): seq<Item> {
    match p.phase
    case Closing => if p.generator == Ended(Failed) then [Error] else []
    case Finished => if p.generator == Ended(Failed) then [Error, End] else [End]
    case _ => []
  }

  predicate Running(phase: ProducerPhase) {
    phase.Generating? || phase.Holding? || phase.Cleared?
  }

  ghost predicate ProducerOk(p: Producer, cancelled: bool) {
    && (p.generator.Abandoned? || p.generated == p.produced + InHand(p.phase))
    && (p.generator.Abandoned? ==> cancelled)
    && (p.generator.Open? <==> p.phase.Idle? || Running(p.phase))
    && (p.phase.Throwing? ==> p.generator == Ended(Failed))
    && (p.phase.Idle? ==> p.produced == [])
  }

  function HandedItems(handed: Option<Item>): seq<Item> {
    if handed.Some? then [handed.value] else []
  }

  ghost predicate PutOk(p: Producer, channel: Channel) {
    channel.put == AsItems(p.produced) + Tail(p)
  }

  ghost predicate QueueOk(channel: Channel) {
    channel.handled <= |channel.put| && channel.put[channel.handled..] == HandedItems(channel.handed) + channel.queue
  }

  predicate AnswerClosed(phase: ConsumerPhase) {
    phase.Finishing? || phase.Attributing? || phase.FollowingUp? || phase.Returned?
  }

  /** The generator ended and raised nothing that `_produce` catches. */
  predicate RanOut(generator: GeneratorState) {
    generator.Ended? && generator.how != Failed
  }

  /** The response is the tokens among the first `handled` items put. */
  ghost predicate ResponseIs(response: seq<Token>, produced: seq<Token>, handled: nat) {
    response == produced[..if handled <= |produced| then handled else |produced|]
  }

  /** What the consumer has seen, against what the producer has put. */
  ghost predicate ConsumerOk(p: Producer, handled: nat, c: Consumer) {
    && ResponseIs(c.response, p.produced, handled)
    && (c.phase.Preparing? || c.phase.Refusing? ==> p.phase.Idle? && !c.cancelled && handled == 0)
    && (c.phase.Awaiting? || c.phase.Sending? ==> !p.phase.Idle? && !c.cancelled && handled <= |p.produced|)
    && (c.phase.Sending? ==> c.response != [] && c.response[|c.response| - 1] == c.phase.token)
    && (AnswerClosed(c.phase) ==> c.closed)
    && (c.closed ==> p.phase.Finished? && !c.cancelled && handled == |p.produced| + 1 && RanOut(p.generator))
    && (c.closed ==> !c.phase.Awaiting? && !c.phase.Sending? && !c.phase.Preparing?)
  }

  // The frames.

  function Kinds(frames: seq<Frame>): (kinds: seq<FrameKind>)
    ensures |kinds| == |frames|
    ensures forall i :: 0 <= i < |frames| ==> kinds[i] == frames[i].kind
  {
    seq(|frames|, i requires 0 <= i < |frames| => frames[i].kind)
  }

  function TokenFrames(tokens: seq<Token>): (kinds: seq<FrameKind>)
    ensures |kinds| == |tokens|
    ensures forall i :: 0 <= i < |tokens| ==> kinds[i] == TokenFrame(tokens[i])
  {
    seq(|tokens|, i requires 0 <= i < |tokens| => TokenFrame(tokens[i]))
  }

  /** What may follow the token frames: (done attribution? follow_ups? | error)? */
  ghost predicate IsCoda(coda: seq<FrameKind>) {
    || coda == [] || coda == [ErrorFrame]
    || coda == [Done] || coda == [Done, Attribution] || coda == [Done, FollowUps]
    || coda == [Done, Attribution, FollowUps]
  }

  /** The codas that a consumer in this phase may have sent. */
  ghost predicate CodaFor(consumer: ConsumerPhase, coda: seq<FrameKind>) {
    match consumer
    case Attributing => coda == [Done]
    case FollowingUp => coda == [Done] || coda == [Done, Attribution]
    case Returned => IsCoda(coda) && coda != [] && coda[0] == Done
    case ReturnedNone => coda == [] || coda == [ErrorFrame]
    case Killed(_) => IsCoda(coda)
    case _ => coda == []
  }

  /** How much of the response has been sent: all of it, but for one token being sent or lost to an
      exception. */
  predicate SentFor(consumer: ConsumerPhase, sent: int, received: nat) {
    match consumer
    case Sending(_) => sent == received - 1
    case Reporting | ReturnedNone | Killed(_) => sent == received || sent == received - 1
    case _ => sent == received
  }

  ghost predicate FramesAre(c: Consumer, sent: nat, coda: seq<FrameKind>) {
    && sent <= |c.response|
    && Kinds(c.frames) == TokenFrames(c.response[..sent]) + coda
    && CodaFor(c.phase, coda)
    && SentFor(c.phase, sent, |c.response|)
    && (coda != [] && coda[0] == Done ==> c.closed && sent == |c.response|)
  }

  ghost predicate FramesOk(c: Consumer) {
    exists sent: nat, coda :: FramesAre(c, sent, coda)
  }

  ghost predicate Inv(s: State) {
    && ProducerOk(s.producer, s.consumer.cancelled)
    && PutOk(s.producer, s.channel)
    && QueueOk(s.channel)
    && ConsumerOk(s.producer, s.channel.handled, s.consumer)
    && FramesOk(s.consumer)
  }

  // ---------------------------------------------------------------- one step

  lemma ProducerStep(s: State, e: Event)
    requires ProducerOk(s.producer, s.consumer.cancelled) && Enabled(s, e)
    requires ConsumerOk(s.producer, s.channel.handled, s.consumer)
    ensures ProducerOk(ProducerAfter(s, e), ConsumerAfter(s, e).cancelled)
  {
  }

  lemma PutStep(s: State, e: Event)
    requires ProducerOk(s.producer, s.consumer.cancelled) && PutOk(s.producer, s.channel) && Enabled(s, e)
    requires ConsumerOk(s.producer, s.channel.handled, s.consumer)
    ensures PutOk(ProducerAfter(s, e), ChannelAfter(s, e))
  {
    var p := s.producer;
    if e.PutToken? {
      assert AsItems(p.produced) + [Token(p.phase.token)] == AsItems(p.produced + [p.phase.token]);
    } else {
      hide AsItems;
      var item := if e.PutError? then Error else End;
      assert e.PutError? || e.PutEnd? ==> ChannelAfter(s, e).put == AsItems(p.produced) + (Tail(p) + [item]);
    }
  }

  lemma QueueStep(s: State, e: Event)
    requires QueueOk(s.channel) && Enabled(s, e)
    ensures QueueOk(ChannelAfter(s, e))
  {
    if e.Handle? {
      assert s.channel.put[s.channel.handled..][1..] == s.channel.put[s.channel.handled + 1..];
    } else if e.PutToken? {
      PutKeepsQueue(s.channel, Token(s.producer.phase.token));
    } else {
      hide Put;
      PutKeepsQueue(s.channel, Error);
      PutKeepsQueue(s.channel, End);
    }
  }

  lemma PutKeepsQueue(channel: Channel, item: Item)
    requires QueueOk(channel)
    ensures QueueOk(Put(channel, item))
  {
    assert (channel.put + [item])[channel.handled..] == channel.put[channel.handled..] + [item];
  }

  /** The item that is handled is the next one put: a token while there are any left. */
  lemma NextItem(p: Producer, channel: Channel)
    requires PutOk(p, channel) && QueueOk(channel) && channel.handed.Some? && channel.handled <= |p.produced|
    requires ProducerOk(p, false)
    ensures channel.handled < |channel.put| && channel.put[channel.handled] == channel.handed.value
    ensures channel.handed.value.Token? <==> channel.handled < |p.produced|
    ensures channel.handed.value.Token? ==> channel.handed.value.token == p.produced[channel.handled]
    ensures channel.handed.value.End? ==>
              p.phase.Finished? && channel.handled == |p.produced| && RanOut(p.generator)
  {
    assert channel.put[channel.handled..][0] == channel.handed.value;
  }

  lemma ConsumerStep(s: State, e: Event)
    requires ProducerOk(s.producer, s.consumer.cancelled) && PutOk(s.producer, s.channel) && QueueOk(s.channel)
    requires ConsumerOk(s.producer, s.channel.handled, s.consumer) && Enabled(s, e)
    ensures ConsumerOk(ProducerAfter(s, e), ChannelAfter(s, e).handled, ConsumerAfter(s, e))
  {
    if e.Handle? {
      NextItem(s.producer, s.channel);
      HandleStep(s.producer, s.channel.handled, s.consumer, s.channel.handed.value);
    } else if e.PutToken? {
      hide AnswerClosed;
      PutTokenStep(s.producer, s.channel.handled, s.consumer, s.producer.phase.token);
    } else {
      hide PutOk, QueueOk, ProducerOk, ConsumerOk;
      OtherStep(s, e);
    }
  }

  lemma OtherStep(s: State, e: Event)
    requires ConsumerOk(s.producer, s.channel.handled, s.consumer) && Enabled(s, e) && !e.Handle? && !e.PutToken?
    ensures ConsumerOk(ProducerAfter(s, e), ChannelAfter(s, e).handled, ConsumerAfter(s, e))
  {
    hide ResponseIs;
  }

  lemma HandleStep(p: Producer, handled: nat, c: Consumer, item: Item)
    requires ConsumerOk(p, handled, c) && c.phase.Awaiting?
    requires item.Token? <==> handled < |p.produced|
    requires item.Token? ==> item.token == p.produced[handled]
    requires item.End? ==>
               p.phase.Finished? && handled == |p.produced| && RanOut(p.generator)
    ensures ConsumerOk(p, handled + 1, HandleItem(c, item))
  {
  }

  lemma PutTokenStep(p: Producer, handled: nat, c: Consumer, token: Token)
    requires ConsumerOk(p, handled, c) && handled <= |p.produced| && p.phase.Cleared?
    ensures ConsumerOk(p.(phase := Generating, produced := p.produced + [token]), handled, c)
  {
    assert (p.produced + [token])[..handled] == p.produced[..handled];
  }

  lemma FramesStep(s: State, e: Event)
    requires ProducerOk(s.producer, s.consumer.cancelled) && PutOk(s.producer, s.channel) && QueueOk(s.channel)
    requires ConsumerOk(s.producer, s.channel.handled, s.consumer) && FramesOk(s.consumer) && Enabled(s, e)
    ensures FramesOk(ConsumerAfter(s, e))
  {
    hide ProducerOk, PutOk, QueueOk, Kinds, TokenFrames;
    var sent: nat, coda :| FramesAre(s.consumer, sent, coda);
    if e.Send? && e.outcome != Raised {
      SendStep(s.consumer, sent, coda, e.outcome);
    } else if e.Extra? {
      ExtraStep(s.consumer, sent, coda, e.attempt);
    } else if e.Handle? {
      HandleFrames(s.consumer, sent, coda, s.channel.handed.value);
    } else {
      hide ConsumerOk;
      QuietFrames(s, e, sent, coda);
    }
  }

  lemma HandleFrames(c: Consumer, sent: nat, coda: seq<FrameKind>, item: Item)
    requires FramesAre(c, sent, coda) && c.phase.Awaiting?
    ensures FramesAre(HandleItem(c, item), sent, coda)
  {
    hide Kinds, TokenFrames;
    if item.Token? {
      assert (c.response + [item.token])[..sent] == c.response[..sent];
    }
  }

  /** Events after which no frame and no token has been added. */
  lemma QuietFrames(s: State, e: Event, sent: nat, coda: seq<FrameKind>)
    requires FramesAre(s.consumer, sent, coda) && Enabled(s, e)
    requires !e.Handle? && !e.Extra? && !(e.Send? && e.outcome != Raised)
    ensures FramesAre(ConsumerAfter(s, e), sent, coda)
  {
    hide Kinds, TokenFrames, SendExtra, HandleItem;
  }

  lemma SendStep(c: Consumer, sent: nat, coda: seq<FrameKind>, outcome: SendOutcome)
    requires FramesAre(c, sent, coda) && Outgoing(c.phase).Some? && outcome != Raised
    requires AnswerClosed(c.phase) ==> c.closed
    requires c.phase.Sending? ==> c.response != [] && c.response[|c.response| - 1] == c.phase.token
    ensures FramesOk(SendFrame(c, Outgoing(c.phase).value, outcome))
  {
    var kind := Outgoing(c.phase).value;
    if c.phase.Sending? {
      assert FramesAre(SendFrame(c, kind, outcome), sent + 1, []);
    } else {
      assert FramesAre(SendFrame(c, kind, outcome), sent, coda + [kind]);
    }
  }

  lemma ExtraStep(c: Consumer, sent: nat, coda: seq<FrameKind>, attempt: Option<SendOutcome>)
    requires FramesAre(c, sent, coda) && (c.phase.Attributing? || c.phase.FollowingUp?)
    ensures c.phase.Attributing? ==> FramesOk(SendExtra(c, Attribution, attempt, FollowingUp))
    ensures c.phase.FollowingUp? ==> FramesOk(SendExtra(c, FollowUps, attempt, Returned))
  {
    var kind := if c.phase.Attributing? then Attribution else FollowUps;
    var next := if c.phase.Attributing? then FollowingUp else Returned;
    var longer := if attempt.None? || attempt.value == Raised then coda else coda + [kind];
    assert FramesAre(SendExtra(c, kind, attempt, next), sent, longer);
  }

  lemma InvStep(s: State, e: Event)
    requires Inv(s) && Enabled(s, e)
    ensures Inv(Step(s, e))
  {
    hide Enabled, ProducerAfter, ChannelAfter, ConsumerAfter, ProducerOk, PutOk, QueueOk, ConsumerOk, FramesOk;
    ProducerStep(s, e);
    PutStep(s, e);
    QueueStep(s, e);
    ConsumerStep(s, e);
    FramesStep(s, e);
  }

  // ---------------------------------------------------------------- whole runs

  lemma InitialInv()
    ensures Inv(Initial())
  {
    assert FramesAre(Initial().consumer, 0, []);
  }

  lemma {:induction false} InvRun(s: State, es: seq<Event>)
    requires Inv(s) && Run(s, es)
    ensures Inv(After(s, es))
    decreases |es|
  {
    if es != [] {
      hide Inv, Enabled, Step;
      InvStep(s, es[0]);
      InvRun(Step(s, es[0]), es[1..]);
    }
  }

  // Tokens.

  function TokensOf(items: seq<Item>): seq<Token> {
    if items == [] then []
    else (if items[0].Token? then [items[0].token] else []) + TokensOf(items[1..])
  }

  lemma {:induction false} TokensOfItems(tokens: seq<Token>, tail: seq<Item>)
    requires forall i :: 0 <= i < |tail| ==> !tail[i].Token?
    ensures TokensOf(AsItems(tokens) + tail) == tokens
    decreases |tokens| + |tail|
  {
    var items := AsItems(tokens) + tail;
    if tokens != [] {
      assert items[1..] == AsItems(tokens[1..]) + tail;
      TokensOfItems(tokens[1..], tail);
    } else if tail != [] {
      assert items == tail;
      assert items[1..] == AsItems([]) + tail[1..];
      TokensOfItems([], tail[1..]);
    }
  }

  /** The items not handled yet, in the order in which the consumer will get them. */
  function Waiting(channel: Channel): seq<Item> {
    HandedItems(channel.handed) + channel.queue
  }

  lemma WaitingTokens(p: Producer, channel: Channel, c: Consumer)
    requires PutOk(p, channel) && QueueOk(channel) && ConsumerOk(p, channel.handled, c)
    ensures c.response + TokensOf(Waiting(channel)) == p.produced
  {
    hide AsItems, ResponseIs;
    TailHasNoTokens(p);
    SuffixTokens(p.produced, Tail(p), channel.handled);
    AllTokens(c.response, p.produced, channel.handled);
  }

  lemma TailHasNoTokens(p: Producer)
    ensures forall i :: 0 <= i < |Tail(p)| ==> !Tail(p)[i].Token?
  {
  }

  /** The tokens that the consumer has not had of the first `handled` items. */
  function Remaining(produced: seq<Token>, handled: nat): seq<Token> {
    if handled <= |produced| then produced[handled..] else []
  }

  lemma AllTokens(response: seq<Token>, produced: seq<Token>, handled: nat)
    requires ResponseIs(response, produced, handled)
    ensures response + Remaining(produced, handled) == produced
  {
  }

  lemma SuffixTokens(produced: seq<Token>, tail: seq<Item>, handled: nat)
    requires handled <= |AsItems(produced) + tail| && forall i :: 0 <= i < |tail| ==> !tail[i].Token?
    ensures TokensOf((AsItems(produced) + tail)[handled..]) == Remaining(produced, handled)
  {
    var items := AsItems(produced) + tail;
    if handled <= |produced| {
      assert items[handled..] == AsItems(produced[handled..]) + tail;
      TokensOfItems(produced[handled..], tail);
    } else {
      assert items[handled..] == AsItems([]) + tail[handled - |produced|..];
      TokensOfItems([], tail[handled - |produced|..]);
    }
  }

  /** Conservation: in every interleaving, the response and the tokens still waiting are, in order, the
      tokens put on the queue; and until a cancellation is seen those are the tokens generated, but for
      the one in the producer's hand. */
  lemma NothingLostOrReordered(es: seq<Event>)
    requires Run(Initial(), es)
    ensures var s := After(Initial(), es);
            && s.consumer.response + TokensOf(Waiting(s.channel)) == s.producer.produced
            && (!s.consumer.cancelled ==> s.producer.generated == s.producer.produced + InHand(s.producer.phase))
  {
    InitialInv();
    InvRun(Initial(), es);
    var s := After(Initial(), es);
    hide Run, After, FramesOk;
    WaitingTokens(s.producer, s.channel, s.consumer);
  }

  // Frames.

  ghost predicate Answered(p: Producer, c: Consumer, coda: seq<FrameKind>) {
    && c.response == p.generated == p.produced && RanOut(p.generator)
    && Kinds(c.frames) == TokenFrames(p.generated) + coda
  }

  /** The frames whose send has returned are token* (done attribution? follow_ups? | error)?: the tokens
      of the response in order, of which an exception can cost the last one, and then the coda. */
  lemma FrameGrammar(es: seq<Event>)
    requires Run(Initial(), es)
    ensures var c := After(Initial(), es).consumer;
            exists sent: nat, coda ::
              && |c.response| - 1 <= sent <= |c.response| && IsCoda(coda)
              && Kinds(c.frames) == TokenFrames(c.response[..sent]) + coda
  {
    InitialInv();
    InvRun(Initial(), es);
    var c := After(Initial(), es).consumer;
    hide Run, After;
    var sent: nat, coda :| FramesAre(c, sent, coda);
    assert IsCoda(coda);
  }

  /** The frames that have reached the client. */
  function Seen(frames: seq<Frame>): seq<FrameKind> {
    if frames == [] then [] else (if frames[0].delivered then [frames[0].kind] else []) + Seen(frames[1..])
  }

  /** A socket that has dropped one frame drops all later ones. */
  ghost predicate ClosedStays(frames: seq<Frame>) {
    forall i, j :: 0 <= i < j < |frames| && !frames[i].delivered ==> !frames[j].delivered
  }

  lemma {:induction false} SeenIsPrefix(frames: seq<Frame>)
    requires ClosedStays(frames)
    ensures Seen(frames) <= Kinds(frames)
    ensures frames != [] && !frames[0].delivered ==> Seen(frames) == []
  {
    if frames != [] {
      SeenIsPrefix(frames[1..]);
      assert Kinds(frames) == [frames[0].kind] + Kinds(frames[1..]);
      if !frames[0].delivered && |frames| > 1 {
        assert !frames[1].delivered;
      }
    }
  }

  ghost predicate GrammarIs(kinds: seq<FrameKind>, tokens: seq<Token>, seen: nat, coda: seq<FrameKind>) {
    seen <= |tokens| && IsCoda(coda) && kinds == TokenFrames(tokens[..seen]) + coda
  }

  /** Some of the tokens from the first on, and a coda. */
  ghost predicate InGrammar(kinds: seq<FrameKind>, tokens: seq<Token>) {
    exists seen: nat, coda :: GrammarIs(kinds, tokens, seen, coda)
  }

  lemma CutGrammar(kinds: seq<FrameKind>, tokens: seq<Token>, n: nat)
    requires InGrammar(kinds, tokens) && n <= |kinds|
    ensures InGrammar(kinds[..n], tokens)
  {
    var seen: nat, coda :| GrammarIs(kinds, tokens, seen, coda);
    if n <= seen {
      assert kinds[..n] == TokenFrames(tokens[..n]) + [];
      assert GrammarIs(kinds[..n], tokens, n, []);
    } else {
      assert kinds[..n] == TokenFrames(tokens[..seen]) + coda[..n - seen];
      assert GrammarIs(kinds[..n], tokens, seen, coda[..n - seen]);
    }
  }

  /** What the client sees of a socket that stays closed once it drops a frame has the same grammar. */
  lemma ClientSeesGrammar(es: seq<Event>)
    requires Run(Initial(), es) && ClosedStays(After(Initial(), es).consumer.frames)
    ensures var c := After(Initial(), es).consumer;
            Seen(c.frames) <= Kinds(c.frames) && InGrammar(Seen(c.frames), c.response)
  {
    FrameGrammar(es);
    var c := After(Initial(), es).consumer;
    hide Run, After, Kinds, TokenFrames, IsCoda, Seen;
    SeenIsPrefix(c.frames);
    var sent: nat, coda :|
      && |c.response| - 1 <= sent <= |c.response| && IsCoda(coda)
      && Kinds(c.frames) == TokenFrames(c.response[..sent]) + coda;
    assert GrammarIs(Kinds(c.frames), c.response, sent, coda);
    CutGrammar(Kinds(c.frames), c.response, |Seen(c.frames)|);
    assert Seen(c.frames) == Kinds(c.frames)[..|Seen(c.frames)|];
  }

  /** The done frame, and the returned answer, mean that the generator ran out and that every token
      it yielded has been collected, and sent before, in order. */
  lemma DoneMeansComplete(es: seq<Event>)
    requires Run(Initial(), es)
    ensures var s := After(Initial(), es);
            Done in Kinds(s.consumer.frames) || s.consumer.phase.Returned? ==>
              exists coda :: Answered(s.producer, s.consumer, coda) && IsCoda(coda) && coda != [] && coda[0] == Done
  {
    InitialInv();
    InvRun(Initial(), es);
    var s := After(Initial(), es);
    hide Run, After;
    var sent: nat, coda :| FramesAre(s.consumer, sent, coda);
    if Done in Kinds(s.consumer.frames) || s.consumer.phase.Returned? {
      assert IsCoda(coda);
      DoneInCoda(s.consumer, sent, coda);
      assert s.consumer.response[..sent] == s.consumer.response;
      assert s.producer.produced[..|s.producer.produced|] == s.producer.produced;
      assert Answered(s.producer, s.consumer, coda);
    }
  }

  lemma DoneInCoda(c: Consumer, sent: nat, coda: seq<FrameKind>)
    requires FramesAre(c, sent, coda) && IsCoda(coda)
    requires Done in Kinds(c.frames) || c.phase.Returned?
    ensures coda != [] && coda[0] == Done
  {
    if Done in Kinds(c.frames) {
      var i :| 0 <= i < |c.frames| && Kinds(c.frames)[i] == Done;
      assert (TokenFrames(c.response[..sent]) + coda)[i] == Done;
      assert coda[i - sent] == Done;
    }
  }

  // Cancellation.

  predicate IsProducerStep(e: Event) {
    e.Yield? || e.GeneratorEnds? || e.CheckCancel? || e.PutToken? || e.PutError? || e.PutEnd?
  }

  function ProducerSteps(es: seq<Event>): nat {
    if es == [] then 0 else (if IsProducerStep(es[0]) then 1 else 0) + ProducerSteps(es[1..])
  }

  /** The steps that a producer has left once the cancel flag is set. */
  function StepsLeft(phase: ProducerPhase): nat {
    match phase
    case Cleared(_) => 5
    case Generating => 4
    case Holding(_) => 3
    case Throwing => 2
    case Closing => 1
    case Idle | Finished => 0
  }

  /** A put that has passed its check before the flag was set still happens. */
  function PutsLeft(phase: ProducerPhase): nat {
    if phase.Cleared? then 1 else 0
  }

  lemma CancelledStep(s: State, e: Event)
    requires Inv(s) && s.consumer.cancelled && Enabled(s, e)
    ensures Step(s, e).consumer.cancelled
    ensures var p, q := s.producer, Step(s, e).producer;
            && p.produced <= q.produced && |q.produced| + PutsLeft(q.phase) <= |p.produced| + PutsLeft(p.phase)
            && StepsLeft(q.phase) + (if IsProducerStep(e) then 1 else 0) <= StepsLeft(p.phase)
  {
    hide PutOk, QueueOk, FramesOk;
  }

  lemma {:induction false} CancelledRun(s: State, es: seq<Event>)
    requires Inv(s) && s.consumer.cancelled && Run(s, es)
    ensures var p, q := s.producer, After(s, es).producer;
            && p.produced <= q.produced && |q.produced| + PutsLeft(q.phase) <= |p.produced| + PutsLeft(p.phase)
            && StepsLeft(q.phase) + ProducerSteps(es) <= StepsLeft(p.phase)
    decreases |es|
  {
    if es != [] {
      hide Inv, Enabled, Step, StepsLeft, PutsLeft, IsProducerStep;
      InvStep(s, es[0]);
      CancelledStep(s, es[0]);
      CancelledRun(Step(s, es[0]), es[1..]);
    }
  }

  /** Once the consumer has set the cancel flag, the producer puts at most one more token, and that only
      if it had passed its check, and it takes at most five more steps. */
  lemma CancelStopsTheProducer(before: seq<Event>, es: seq<Event>)
    requires Run(Initial(), before) && After(Initial(), before).consumer.cancelled
    requires Run(After(Initial(), before), es)
    ensures var p := After(Initial(), before).producer;
            var q := After(After(Initial(), before), es).producer;
            && p.produced <= q.produced
            && |q.produced| <= |p.produced| + (if p.phase.Cleared? then 1 else 0)
            && ProducerSteps(es) <= 5
  {
    InitialInv();
    InvRun(Initial(), before);
    hide Run, After, Inv;
    CancelledRun(After(Initial(), before), es);
  }

  // No waiting for ever.

  /** A consumer that waits is never left alone: while no item waits for it, the producer is still at
      work. */
  lemma ConsumerIsNeverStranded(es: seq<Event>)
    requires Run(Initial(), es)
    ensures var s := After(Initial(), es);
            s.consumer.phase.Awaiting? && Waiting(s.channel) == [] ==>
              !s.producer.phase.Idle? && !s.producer.phase.Finished?
  {
    InitialInv();
    InvRun(Initial(), es);
    var s := After(Initial(), es);
    hide Run, After, FramesOk;
    if s.consumer.phase.Awaiting? && s.producer.phase.Finished? {
      assert |s.channel.put[s.channel.handled..]| > 0;
    }
  }

  // What done says about the generator.

  /** A generator that has ended stays as it ended. */
  lemma {:induction false} InterruptedIff(s: State, es: seq<Event>)
    requires Inv(s) && Run(s, es)
    ensures After(s, es).producer.generator == Ended(Interrupted)
       <==> s.producer.generator == Ended(Interrupted) || GeneratorEnds(Interrupted) in es
    decreases |es|
  {
    if es != [] {
      InvStep(s, es[0]);
      InterruptedStep(s, es[0]);
      hide Inv, Enabled, Step;
      assert es == [es[0]] + es[1..];
      InterruptedIff(Step(s, es[0]), es[1..]);
    }
  }

  lemma InterruptedStep(s: State, e: Event)
    requires ProducerOk(s.producer, s.consumer.cancelled) && Enabled(s, e)
    ensures Step(s, e).producer.generator == Ended(Interrupted)
       <==> s.producer.generator == Ended(Interrupted) || e == GeneratorEnds(Interrupted)
  {
  }

  ghost predicate SentDone(es: seq<Event>)
    requires Run(Initial(), es)
  {
    Done in Kinds(After(Initial(), es).consumer.frames)
  }

  /** In a run that has sent done, the generator has ended normally exactly if it was not interrupted by
      a throwable that is no `Exception`. */
  lemma DoneSaysExhausted(es: seq<Event>)
    requires Run(Initial(), es) && SentDone(es)
    ensures After(Initial(), es).producer.generator == Ended(Exhausted) <==> GeneratorEnds(Interrupted) !in es
  {
    InitialInv();
    InterruptedIff(Initial(), es);
    DoneMeansComplete(es);
    hide Run, After, Kinds;
    var generator := After(Initial(), es).producer.generator;
    assert RanOut(generator);
    assert generator == Ended(generator.how);
  }

  /** Done means that the generator has ended normally, in all runs with or without interruptions. */
  ghost predicate DoneMeansExhausted(interrupts: bool) {
    forall es ::
      Run(Initial(), es) && (interrupts || GeneratorEnds(Interrupted) !in es) && SentDone(es) ==>
        After(Initial(), es).producer.generator == Ended(Exhausted)
  }

  /** It does exactly when the generator is never interrupted: `_produce` lets a throwable that is no
      `Exception` pass, and its `finally` still puts the closing `None`. */
  lemma DoneMeansExhaustedIff(interrupts: bool)
    ensures DoneMeansExhausted(interrupts) <==> !interrupts
  {
    hide Run, After, Kinds;
    if interrupts {
      InterruptedGeneratorLooksDone();
    } else {
      forall es | Run(Initial(), es) && GeneratorEnds(Interrupted) !in es && SentDone(es)
        ensures After(Initial(), es).producer.generator == Ended(Exhausted)
      {
        DoneSaysExhausted(es);
      }
    }
  }

  lemma {:induction false} ExtendRun(s: State, es: seq<Event>, e: Event)
    requires Run(s, es) && Enabled(After(s, es), e)
    ensures Run(s, es + [e]) && After(s, es + [e]) == Step(After(s, es), e)
    decreases |es|
  {
    hide Enabled, Step;
    if es == [] {
      assert es + [e] == [e];
      assert [e][1..] == [];
    } else {
      assert (es + [e])[1..] == es[1..] + [e];
      ExtendRun(Step(s, es[0]), es[1..], e);
    }
  }

  const INTERRUPTED_AT_ONCE: seq<Event> :=
    [Prepared(true), GeneratorEnds(Interrupted), PutEnd, Take, Handle, Send(Delivered)]

  /** The shortest such run: the throwable comes before any token, and the client is told that an empty
      answer is done. */
  lemma InterruptedGeneratorLooksDone()
    ensures Run(Initial(), INTERRUPTED_AT_ONCE)
    ensures var s := After(Initial(), INTERRUPTED_AT_ONCE);
            && s.producer.generator == Ended(Interrupted)
            && Kinds(s.consumer.frames) == [Done] && s.consumer.response == []
  {
    var s := Initial();
    var es: seq<Event> := [];
    assert Run(s, es) && After(s, es) == s;
    hide Run, After;
    ExtendRun(s, es, Prepared(true));
    es := es + [Prepared(true)];
    ExtendRun(s, es, GeneratorEnds(Interrupted));
    es := es + [GeneratorEnds(Interrupted)];
    ExtendRun(s, es, PutEnd);
    es := es + [PutEnd];
    ExtendRun(s, es, Take);
    es := es + [Take];
    ExtendRun(s, es, Handle);
    es := es + [Handle];
    ExtendRun(s, es, Send(Delivered));
    es := es + [Send(Delivered)];
    assert es == INTERRUPTED_AT_ONCE;
  }
}
