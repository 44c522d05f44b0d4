/** The two loops of the token streamer (generation/streamer.py), each on its own: `_produce`, which
    puts tokens on the queue, and the consumer loop, which takes them off and sends them. */
module Streamer {

  type Token = string

  /** A queue entry: a token, the producer's exception, or the closing `None`. */
  datatype Item = Token(token: Token) | Error | End

  /** How the generator ends: normally, with an `Exception`, or with any other throwable. */
  datatype GeneratorEnd = Exhausted | Failed | Interrupted

  /** `send` drops a `RuntimeError` and lets any other exception out. */
  datatype SendOutcome = Delivered | Suppressed | Raised

  function AsItems(tokens: seq<Token>): (items: seq<Item>)
    ensures |items| == |tokens|
    ensures forall i :: 0 <= i < |items| ==> items[i] == Token(tokens[i])
  {
    seq(|tokens|, i requires 0 <= i < |tokens| => Token(tokens[i]))
  }

  /** What `_produce` puts after the tokens. */
  function Closing(failed: bool): seq<Item> {
    if failed then [Error, End] else [End]
  }

  /** What `_produce` puts on the queue when it sees the cancel flag from its `cancelled`-th token on. */
  function Produced(tokens: seq<Token>, end: GeneratorEnd, cancelled: nat): seq<Item> {
    if cancelled < |tokens| then AsItems(tokens[..cancelled]) + Closing(false)
    else AsItems(tokens) + Closing(end == Failed)
  }

  /** How many tokens are put: those before the one at which the flag is seen. */
  function PutCount(tokens: seq<Token>, cancelled: nat): (n: nat)
    ensures n <= |tokens| && n <= cancelled && (n == |tokens| || n == cancelled)
  {
    if cancelled < |tokens| then cancelled else |tokens|
  }

  /** `_produce` */
  method Produce(tokens: seq<Token>, end: GeneratorEnd, cancelled: nat) returns (queue: seq<Item>)
    ensures queue == Produced(tokens, end, cancelled)
    ensures queue == AsItems(tokens[..PutCount(tokens, cancelled)])
                     + if cancelled >= |tokens| && end == Failed then [Error, End] else [End]
  {
    queue := [];
    var i := 0;
    while i < |tokens|
      invariant 0 <= i <= |tokens| && i <= cancelled
      invariant queue == AsItems(tokens[..i])
    {
      if i >= cancelled {
        queue := queue + [End];
        return;
      }
      queue := queue + [Token(tokens[i])];
      i := i + 1;
    }
    assert tokens[..i] == tokens;
    if end == Failed {
      queue := queue + [Error];
    }
    queue := queue + [End];
  }

  /** How the consumer loop ends: at the closing `None`, or with an exception that sets the cancel flag. */
  datatype LoopEnd = Closed | Cancelled

  /** `response` is what the loop has collected, `seen` what the client has been sent. */
  datatype LoopResult = LoopResult(response: seq<Token>, seen: seq<Token>, end: LoopEnd)

  function Show(seen: seq<Token>, token: Token, outcome: SendOutcome): seq<Token> {
    if outcome == Delivered then seen + [token] else seen
  }

  /** The loop on the items it takes, with the outcome of each of its sends. */
  function Consumed(items: seq<Item>, outcomes: seq<SendOutcome>, response: seq<Token>, seen: seq<Token>): LoopResult
    requires End in items && |outcomes| >= |items|
  {
    match items[0]
    case End => LoopResult(response, seen, Closed)
    case Error => LoopResult(response, seen, Cancelled)
    case Token(token) =>
      if outcomes[0] == Raised then LoopResult(response + [token], seen, Cancelled)
      else Consumed(items[1..], outcomes[1..], response + [token], Show(seen, token, outcomes[0]))
  }

  /** The consumer loop. */
  method Consume(items: seq<Item>, outcomes: seq<SendOutcome>) returns (result: LoopResult)
    requires End in items && |outcomes| >= |items|
    ensures result == Consumed(items, outcomes, [], [])
  {
    var response: seq<Token>, seen: seq<Token> := [], [];
    var rest, sends := items, outcomes;
    while true
      invariant End in rest && |sends| >= |rest|
      invariant Consumed(items, outcomes, [], []) == Consumed(rest, sends, response, seen)
      decreases |rest|
    {
      var item := rest[0];
      if item.End? {
        return LoopResult(response, seen, Closed);
      } else if item.Error? {
        return LoopResult(response, seen, Cancelled);
      }
      response := response + [item.token];
      if sends[0] == Raised {
        return LoopResult(response, seen, Cancelled);
      }
      seen := Show(seen, item.token, sends[0]);
      rest, sends := rest[1..], sends[1..];
    }
  }

  ghost predicate NoneRaised(outcomes: seq<SendOutcome>, n: nat) {
    forall i :: 0 <= i < n && i < |outcomes| ==> outcomes[i] != Raised
  }

  /** Of the sends, the `n`-th is the first that raises. */
  ghost predicate FirstRaised(outcomes: seq<SendOutcome>, n: int) {
    0 < n <= |outcomes| && outcomes[n - 1] == Raised && forall i :: 0 <= i < n - 1 ==> outcomes[i] != Raised
  }

  ghost predicate AllDelivered(outcomes: seq<SendOutcome>, n: nat) {
    forall i :: 0 <= i < n && i < |outcomes| ==> outcomes[i] == Delivered
  }

  /** The tokens whose send reached the client. */
  function Reaching(tokens: seq<Token>, outcomes: seq<SendOutcome>): seq<Token>
    requires |outcomes| >= |tokens|
  {
    if tokens == [] then []
    else (if outcomes[0] == Delivered then [tokens[0]] else []) + Reaching(tokens[1..], outcomes[1..])
  }

  /** The loop's result on the items of `tokens` and their closing. */
  ghost predicate LoopResultOk(result: LoopResult, tokens: seq<Token>, failed: bool, outcomes: seq<SendOutcome>,
                               response: seq<Token>, seen: seq<Token>)
  {
    && (result.end == Closed <==> !failed && NoneRaised(outcomes, |tokens|))
    && result.response <= response + tokens
    && (NoneRaised(outcomes, |tokens|) ==> result.response == response + tokens)
    && (AllDelivered(outcomes, |tokens|) ==> result.seen == seen + tokens)
    && response <= result.response && |outcomes| >= |result.response| - |response|
    && result.seen == seen + Reaching(result.response[|response|..], outcomes)
    && (!NoneRaised(outcomes, |tokens|) ==> FirstRaised(outcomes, |result.response| - |response|))
  }

  lemma EndIsPut(tokens: seq<Token>, failed: bool)
    ensures End in AsItems(tokens) + Closing(failed)
  {
    var items := AsItems(tokens) + Closing(failed);
    assert items[|items| - 1] == End;
  }

  lemma {:induction false} ConsumeTokens(tokens: seq<Token>, failed: bool, outcomes: seq<SendOutcome>,
                                         response: seq<Token>, seen: seq<Token>)
    requires |outcomes| >= |tokens| + |Closing(failed)|
    ensures End in AsItems(tokens) + Closing(failed)
    ensures LoopResultOk(Consumed(AsItems(tokens) + Closing(failed), outcomes, response, seen),
                         tokens, failed, outcomes, response, seen)
  {
    hide LoopResultOk;
    EndIsPut(tokens, failed);
    var items := AsItems(tokens) + Closing(failed);
    if tokens == [] {
      assert items == Closing(failed);
      OnlyClosing(failed, outcomes, response, seen);
    } else {
      assert items[0] == Token(tokens[0]) && items[1..] == AsItems(tokens[1..]) + Closing(failed);
      if outcomes[0] == Raised {
        RaisedAtOnce(tokens, failed, outcomes, response, seen);
      } else {
        var next := Show(seen, tokens[0], outcomes[0]);
        ConsumeTokens(tokens[1..], failed, outcomes[1..], response + [tokens[0]], next);
        var result := Consumed(items[1..], outcomes[1..], response + [tokens[0]], next);
        OneMoreToken(result, tokens, failed, outcomes, response, seen);
      }
    }
  }

  lemma OnlyClosing(failed: bool, outcomes: seq<SendOutcome>, response: seq<Token>, seen: seq<Token>)
    ensures LoopResultOk(LoopResult(response, seen, if failed then Cancelled else Closed),
                         [], failed, outcomes, response, seen)
  {
    assert response + [] == response && seen + [] == seen;
  }

  lemma RaisedAtOnce(tokens: seq<Token>, failed: bool, outcomes: seq<SendOutcome>, response: seq<Token>,
                     seen: seq<Token>)
    requires tokens != [] && outcomes != [] && outcomes[0] == Raised
    ensures LoopResultOk(LoopResult(response + [tokens[0]], seen, Cancelled), tokens, failed, outcomes, response, seen)
  {
    assert response + tokens == response + [tokens[0]] + tokens[1..];
    assert !NoneRaised(outcomes, |tokens|) && !AllDelivered(outcomes, |tokens|);
    assert (response + [tokens[0]])[|response|..] == [tokens[0]];
  }

  lemma OneMoreToken(result: LoopResult, tokens: seq<Token>, failed: bool, outcomes: seq<SendOutcome>,
                     response: seq<Token>, seen: seq<Token>)
    requires tokens != [] && outcomes != [] && outcomes[0] != Raised
    requires LoopResultOk(result, tokens[1..], failed, outcomes[1..], response + [tokens[0]],
                          Show(seen, tokens[0], outcomes[0]))
    ensures LoopResultOk(result, tokens, failed, outcomes, response, seen)
  {
    OutcomesFromNext(outcomes, |tokens|);
    assert response + [tokens[0]] + tokens[1..] == response + tokens;
    assert seen + [tokens[0]] + tokens[1..] == seen + tokens;
    var added := result.response[|response|..];
    assert added[0] == tokens[0] && added[1..] == result.response[|response| + 1..];
    assert Reaching(added, outcomes)
        == (if outcomes[0] == Delivered then [tokens[0]] else []) + Reaching(added[1..], outcomes[1..]);
  }

  lemma OutcomesFromNext(outcomes: seq<SendOutcome>, n: nat)
    requires outcomes != [] && n > 0
    ensures NoneRaised(outcomes, n) <==> outcomes[0] != Raised && NoneRaised(outcomes[1..], n - 1)
    ensures AllDelivered(outcomes, n) <==> outcomes[0] == Delivered && AllDelivered(outcomes[1..], n - 1)
  {
    assert forall i :: 1 <= i < |outcomes| ==> outcomes[i] == outcomes[1..][i - 1];
  }

  /** The two loops together: the consumer loop closes exactly when every send of a token returns and
      the generator has raised no `Exception`, and then the response is every token that was put, which is
      every token before the one at which the flag was seen. If a send raises, the response ends with the
      token of the first that did. The client has seen the tokens of the response
      whose send reached it. */
  lemma LoopClosesIff(tokens: seq<Token>, end: GeneratorEnd, cancelled: nat, outcomes: seq<SendOutcome>)
    requires |outcomes| >= |Produced(tokens, end, cancelled)|
    ensures End in Produced(tokens, end, cancelled)
    ensures var put := tokens[..PutCount(tokens, cancelled)];
            var result := Consumed(Produced(tokens, end, cancelled), outcomes, [], []);
            && (result.end == Closed <==> NoneRaised(outcomes, |put|) && (cancelled < |tokens| || end != Failed))
            && result.response <= put
            && (result.end == Closed ==> result.response == put)
            && (!NoneRaised(outcomes, |put|) ==> FirstRaised(outcomes, |result.response|))
            && (AllDelivered(outcomes, |put|) ==> result.seen == result.response)
            && |outcomes| >= |result.response| && result.seen == Reaching(result.response, outcomes)
  {
    hide Consumed, NoneRaised, FirstRaised, AllDelivered, Produced, Reaching;
    var put := tokens[..PutCount(tokens, cancelled)];
    ProducedIs(tokens, end, cancelled);
    ConsumeTokens(put, cancelled >= |tokens| && end == Failed, outcomes, [], []);
    DeliveredIsNotRaised(outcomes, |put|);
    var result := Consumed(Produced(tokens, end, cancelled), outcomes, [], []);
    assert [] + put == put && result.response[0..] == result.response;
    assert [] + Reaching(result.response, outcomes) == Reaching(result.response, outcomes);
  }

  lemma ProducedIs(tokens: seq<Token>, end: GeneratorEnd, cancelled: nat)
    ensures Produced(tokens, end, cancelled)
         == AsItems(tokens[..PutCount(tokens, cancelled)]) + Closing(cancelled >= |tokens| && end == Failed)
  {
    assert tokens[..|tokens|] == tokens;
  }

  lemma DeliveredIsNotRaised(outcomes: seq<SendOutcome>, n: nat)
    ensures AllDelivered(outcomes, n) ==> NoneRaised(outcomes, n)
  {
  }
}
