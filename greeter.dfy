/**
 * The reference greeter service (`GreeterImpl`): one unary call, one
 * server-streaming call that emits two replies, one client-streaming call
 * that collects every greeting into a single reply, and one bidirectional
 * call that numbers the requests.
 */
module Greeter {
  import opened Wrappers
  import opened Text

  datatype GreetRequest = GreetRequest(greeting: string)
  datatype GreetReply = GreetReply(reply: string)

  // ---------------------------------------------------------------------
  // greet

  /** `greet`: "Hello " followed by the greeting. */
  function Greet(request: GreetRequest): (r: GreetReply)
    ensures |r.reply| == 6 + |request.greeting| && r.reply[6..] == request.greeting
  {
    GreetReply("Hello " + request.greeting)
  }

  /** The unary reply starts with "Hello " and carries the greeting unchanged after it. */
  lemma GreetCarriesGreeting(request: GreetRequest)
    ensures var r := Greet(request).reply;
      |r| == 6 + |request.greeting| && r[..6] == "Hello " && r[6..] == request.greeting
  {
  }

  /** Distinct greetings get distinct replies. */
  lemma GreetInjective(a: GreetRequest, b: GreetRequest)
    ensures Greet(a) == Greet(b) ==> a == b
  {
    if Greet(a) == Greet(b) {
      GreetCarriesGreeting(a);
      GreetCarriesGreeting(b);
    }
  }

  // ---------------------------------------------------------------------
  // greetServerStream

  /** `greetServerStream`: exactly two replies, in this order. */
  function GreetServerStream(request: GreetRequest): seq<GreetReply> {
    [GreetReply("Hello " + request.greeting + "!"), GreetReply("Greetings " + request.greeting + "!")]
  }

  /**
   * The stream holds two different replies, each ending in "!" with the
   * greeting just before it.
   */
  lemma ServerStreamReplies(request: GreetRequest)
    ensures var rs := GreetServerStream(request);
      |rs| == 2 && rs[0] != rs[1] &&
      forall i :: 0 <= i < 2 ==>
        var r := rs[i].reply;
        |r| > |request.greeting| && r[|r| - 1] == '!' &&
        r[|r| - 1 - |request.greeting|..|r| - 1] == request.greeting
  {
    var rs := GreetServerStream(request);
    assert rs[0].reply[0] == 'H' && rs[1].reply[0] == 'G';
  }

  // ---------------------------------------------------------------------
  // greetClientStream

  /** The greetings of the requests, in arrival order. */
  function Greetings(requests: seq<GreetRequest>): (gs: seq<string>)
    ensures |gs| == |requests| && forall i :: 0 <= i < |requests| ==> gs[i] == requests[i].greeting
  {
    seq(|requests|, i requires 0 <= i < |requests| => requests[i].greeting)
  }

  /** Items separated by ", " (the separator is a comma and a space). */
  function CommaJoin(items: seq<string>): string {
    if items == [] then ""
    else if |items| == 1 then items[0]
    else items[0] + ", " + CommaJoin(items[1..])
  }

  /** Kotlin's `List.toString`: the items between brackets, separated by ", ". */
  function Render(items: seq<string>): string {
    "[" + CommaJoin(items) + "]"
  }

  /** The reply text of a client-streaming call that sent `greetings`. */
  function ClientStreamReply(greetings: seq<string>): GreetReply {
    GreetReply("Hi to all of " + Render(greetings) + "!")
  }

  /**
   * `greetClientStream`: collect every greeting in arrival order, then reply
   * once with the rendered list.
   */
  method GreetClientStream(requests: seq<GreetRequest>) returns (reply: GreetReply)
    ensures reply == ClientStreamReply(Greetings(requests))
  {
    var greetings: seq<string> := [];
    var i := 0;
    while i < |requests|
      invariant 0 <= i <= |requests|
      invariant greetings == Greetings(requests[..i])
    {
      greetings := greetings + [requests[i].greeting];
      i := i + 1;
    }
    assert requests[..i] == requests;
    reply := ClientStreamReply(greetings);
  }

  /** The items joined with ", " are the items joined with ',' each later one behind a space. */
  lemma {:induction false} CommaJoinIsJoinOn(items: seq<string>)
    ensures CommaJoin(items) == JoinOn(SpaceLater(items), ',')
  {
    if |items| > 1 {
      CommaJoinIsJoinOn(items[1..]);
      assert SpaceLater(items)[1..] == SpaceLater(items[1..])[0 := " " + items[1]] by {
        assert SpaceLater(items[1..])[0] == items[1];
      }
      SpaceLaterTail(items);
    }
  }

  /** The first item as is, every later item behind a space. */
  function SpaceLater(items: seq<string>): (r: seq<string>)
    ensures |r| == |items|
  {
    seq(|items|, i requires 0 <= i < |items| => if i == 0 then items[0] else " " + items[i])
  }

  /** Joining the spaced items after the first: the second item gets its space in front. */
  lemma SpaceLaterTail(items: seq<string>)
    requires |items| > 1
    ensures JoinOn(SpaceLater(items)[1..], ',') == " " + JoinOn(SpaceLater(items[1..]), ',')
  {
    var tail := SpaceLater(items)[1..];
    var rest := SpaceLater(items[1..]);
    assert tail[0] == " " + rest[0];
    if |items| > 2 {
      assert tail[1..] == rest[1..];
    }
  }

  /**
   * Reading the list back: split on ',' and drop the space in front of every
   * later piece.
   */
  function Unrender(inner: string): seq<string> {
    Unspace(SplitOn(inner, ','))
  }

  /** The first piece as is, every later non-empty piece without its first character. */
  function Unspace(pieces: seq<string>): seq<string> {
    seq(|pieces|, i requires 0 <= i < |pieces| =>
      if i == 0 || pieces[i] == [] then pieces[i] else pieces[i][1..])
  }

  /**
   * When no greeting contains a comma and at least one was sent, the
   * bracketed list in the reply gives back exactly the greetings in order.
   */
  lemma ClientStreamReplyRecoverable(greetings: seq<string>)
    requires greetings != []
    requires forall i :: 0 <= i < |greetings| ==> ',' !in greetings[i]
    ensures var r := ClientStreamReply(greetings).reply;
      r[..14] == "Hi to all of [" && r[|r| - 2..] == "]!" &&
      Unrender(r[14..|r| - 2]) == greetings
  {
    UnrenderCommaJoin(greetings);
    ReplyFrame(CommaJoin(greetings));
    assert ClientStreamReply(greetings).reply == "Hi to all of [" + CommaJoin(greetings) + "]!";
  }

  /** Comma-free greetings, joined with ", ", read back as themselves. */
  lemma UnrenderCommaJoin(greetings: seq<string>)
    requires greetings != []
    requires forall i :: 0 <= i < |greetings| ==> ',' !in greetings[i]
    ensures Unrender(CommaJoin(greetings)) == greetings
  {
    var spaced := SpaceLater(greetings);
    forall i | 0 <= i < |spaced| ensures ',' !in spaced[i] {
      if i > 0 {
        assert spaced[i] == " " + greetings[i];
      }
    }
    CommaJoinIsJoinOn(greetings);
    SplitJoin(spaced, ',');
    UnspaceSpaceLater(greetings);
  }

  /** Dropping the space in front of every later spaced item gives back the items. */
  lemma UnspaceSpaceLater(items: seq<string>)
    ensures Unspace(SpaceLater(items)) == items
  {
    var spaced := SpaceLater(items);
    var back := Unspace(spaced);
    forall i | 0 <= i < |items| ensures back[i] == items[i] {
      if i > 0 {
        assert spaced[i] == " " + items[i];
      }
    }
  }

  /** The reply text is the fixed opening, the inner list text, and "]!". */
  lemma ReplyFrame(inner: string)
    ensures var r := "Hi to all of [" + inner + "]!";
      r[..14] == "Hi to all of [" && r[|r| - 2..] == "]!" && r[14..|r| - 2] == inner
  {
  }

  /**
   * The rendering alone does not determine the greetings: a greeting that
   * contains ", " reads like two, and no greeting reads like one empty one.
   */
  lemma RenderAmbiguous()
    ensures Render(["a, b"]) == Render(["a", "b"])
    ensures Render([]) == Render([""])
  {
  }

  // ---------------------------------------------------------------------
  // greetBidirectional

  /** The number of values of a Kotlin `Int`. */
  const IntRange: int := 0x1_0000_0000

  /** Kotlin `Int` arithmetic: `i` wrapped into -2^31 .. 2^31 - 1. */
  function WrapInt(i: int): (r: int)
    ensures -0x8000_0000 <= r < 0x8000_0000
    ensures r % IntRange == i % IntRange
    ensures 0 <= i < 0x8000_0000 ==> r == i
  {
    var m := i % IntRange;
    if m < 0x8000_0000 then m else m - IntRange
  }

  /** Two integers wrap to the same `Int` exactly when they differ by a multiple of 2^32. */
  lemma WrapIntSame(i: int, j: int)
    ensures WrapInt(i) == WrapInt(j) <==> (i - j) % IntRange == 0
  {
    var qi, qj := i / IntRange, j / IntRange;
    assert i == IntRange * qi + i % IntRange;
    assert j == IntRange * qj + j % IntRange;
    assert i - j == IntRange * (qi - qj) + (i % IntRange - j % IntRange);
    if WrapInt(i) == WrapInt(j) {
      assert (i - j) % IntRange == (IntRange * (qi - qj)) % IntRange;
    } else {
      assert i % IntRange != j % IntRange;
      var d := i % IntRange - j % IntRange;
      assert -IntRange < d < IntRange && d != 0;
      assert (i - j) % IntRange == d % IntRange;
    }
  }

  /** `count++` on an `Int` counter that has counted `i` requests. */
  lemma WrapIntStep(i: int)
    ensures WrapInt(WrapInt(i) + 1) == WrapInt(i + 1)
  {
    WrapIntSame(WrapInt(i) + 1, i + 1);
    WrapIntSame(WrapInt(i), i);
  }

  /** The reply to the request numbered `n` of a bidirectional call (`"Yo #$n ${greeting}"`). */
  function NumberedReply(n: int, greeting: string): (r: GreetReply)
    ensures |r.reply| > 4 + |greeting| && r.reply[..4] == "Yo #"
    ensures r.reply[|r.reply| - |greeting| - 1..] == " " + greeting
  {
    GreetReply("Yo #" + SignedDecimal(n) + " " + greeting)
  }

  /**
   * `greetBidirectional`: number the requests with the `Int` counter in
   * arrival order (0, 1, 2, …, wrapping past 2^31 - 1 to -2^31) and answer
   * each with its number and greeting. The replies are listed in request
   * order; `count` is the counter after the stream ends.
   */
  method GreetBidirectional(requests: seq<GreetRequest>) returns (replies: seq<GreetReply>, count: int)
    ensures count == WrapInt(|requests|) && |replies| == |requests|
    ensures forall i :: 0 <= i < |requests| ==> replies[i] == NumberedReply(WrapInt(i), requests[i].greeting)
  {
    count := 0;
    replies := [];
    var i := 0;
    while i < |requests|
      invariant 0 <= i <= |requests| && count == WrapInt(i) && |replies| == i
      invariant forall j :: 0 <= j < i ==> replies[j] == NumberedReply(WrapInt(j), requests[j].greeting)
    {
      var n := count;
      WrapIntStep(i);
      count := WrapInt(count + 1);
      replies := replies + [NumberedReply(n, requests[i].greeting)];
      i := i + 1;
    }
  }

  /** The sequence number written in a reply "Yo #<optional minus><digits> …", if it has that form. */
  function SequenceNumber(reply: string): Option<int> {
    if |reply| < 4 || reply[..4] != "Yo #" then None else ReadSigned(reply[4..])
  }

  /** An optional minus sign, then a number followed by a space. */
  function ReadSigned(text: string): Option<int> {
    var negative := text != [] && text[0] == '-';
    match ReadUnsigned(if negative then text[1..] else text)
    case None => None
    case Some(v) => Some(if negative then 0 - v as int else v as int)
  }

  /** A non-empty run of digits followed by a space. */
  function ReadUnsigned(text: string): Option<nat> {
    var digits := DigitRun(text);
    if digits == [] || |digits| == |text| || text[|digits|] != ' ' then None
    else Some(DigitsValue(digits))
  }

  /** Every numbered reply gives back its number, whatever the greeting. */
  lemma NumberedReplyNumber(n: int, greeting: string)
    ensures SequenceNumber(NumberedReply(n, greeting).reply) == Some(n)
  {
    var r := NumberedReply(n, greeting).reply;
    assert r[4..] == SignedDecimal(n) + " " + greeting;
    ReadSignedDecimal(n, greeting);
  }

  /** The signed rendering of `n`, then a space, reads back as `n`. */
  lemma ReadSignedDecimal(n: int, greeting: string)
    ensures ReadSigned(SignedDecimal(n) + " " + greeting) == Some(n)
  {
    if n < 0 {
      ReadNegative(-n, greeting);
    } else {
      ReadNonNegative(n, greeting);
    }
  }

  /** A minus sign and the rendering of `m > 0`, then a space, read back as `-m`. */
  lemma ReadNegative(m: nat, greeting: string)
    requires m > 0
    ensures ReadSigned(SignedDecimal(-(m as int)) + " " + greeting) == Some(-(m as int))
  {
    var text := SignedDecimal(-(m as int)) + " " + greeting;
    var rest := Decimal(m) + " " + greeting;
    assert text == "-" + rest;
    assert text[0] == '-' && text[1..] == rest;
    ReadDecimal(m, greeting);
  }

  /** The rendering of `n >= 0`, then a space, reads back as `n`. */
  lemma ReadNonNegative(n: nat, greeting: string)
    ensures ReadSigned(SignedDecimal(n) + " " + greeting) == Some(n)
  {
    var text := SignedDecimal(n) + " " + greeting;
    var d := Decimal(n);
    assert text == d + " " + greeting;
    assert text[0] == d[0] && IsDigit(d[0]);
    ReadDecimal(n, greeting);
  }

  /** The rendering of `m`, then a space, reads back as `m`. */
  lemma ReadDecimal(m: nat, greeting: string)
    ensures ReadUnsigned(Decimal(m) + " " + greeting) == Some(m)
  {
    var d := Decimal(m);
    assert d + " " + greeting == d + (" " + greeting);
    DigitRunOf(d, " " + greeting);
    DecimalValue(m);
  }

  /** Two numbered replies are equal exactly when their numbers and greetings are. */
  lemma NumberedReplyInjective(n1: int, g1: string, n2: int, g2: string)
    ensures NumberedReply(n1, g1) == NumberedReply(n2, g2) <==> n1 == n2 && g1 == g2
  {
    if NumberedReply(n1, g1) == NumberedReply(n2, g2) {
      NumberedReplyNumber(n1, g1);
      NumberedReplyNumber(n2, g2);
      var prefix := "Yo #" + SignedDecimal(n1) + " ";
      var r := NumberedReply(n1, g1).reply;
      assert r == prefix + g1 && r == prefix + g2;
      assert g1 == r[|prefix|..] == g2;
    }
  }

  /**
   * Two replies of one call are equal exactly when their requests lie a
   * multiple of 2^32 apart, where the `Int` counter repeats, and carry the
   * same greeting; so a call of at most 2^32 requests gets pairwise
   * different replies, even when the greetings repeat.
   */
  lemma BidirectionalRepliesDistinct(requests: seq<GreetRequest>, replies: seq<GreetReply>)
    requires |replies| == |requests|
    requires forall i :: 0 <= i < |requests| ==> replies[i] == NumberedReply(WrapInt(i), requests[i].greeting)
    ensures forall i, j :: 0 <= i < j < |replies| ==>
      (replies[i] == replies[j] <==> (j - i) % IntRange == 0 && requests[i].greeting == requests[j].greeting)
    ensures |replies| <= IntRange ==> forall i, j :: 0 <= i < j < |replies| ==> replies[i] != replies[j]
  {
    forall i, j | 0 <= i < j < |replies|
      ensures replies[i] == replies[j] <==> (j - i) % IntRange == 0 && requests[i].greeting == requests[j].greeting
    {
      RepliesPair(requests, replies, i, j);
    }
    if |replies| <= IntRange {
      forall i, j | 0 <= i < j < |replies| ensures replies[i] != replies[j] {
        RepliesPair(requests, replies, i, j);
        assert (j - i) % IntRange == j - i;
      }
    }
  }

  /** Two replies of one call, by position. */
  lemma RepliesPair(requests: seq<GreetRequest>, replies: seq<GreetReply>, i: nat, j: nat)
    requires |replies| == |requests| && i < j < |replies|
    requires forall k :: 0 <= k < |requests| ==> replies[k] == NumberedReply(WrapInt(k), requests[k].greeting)
    ensures replies[i] == replies[j] <==> (j - i) % IntRange == 0 && requests[i].greeting == requests[j].greeting
  {
    NumberedReplyInjective(WrapInt(i), requests[i].greeting, WrapInt(j), requests[j].greeting);
    WrapIntSame(j, i);
  }

  /** The counter wraps: request 2^31 is numbered -2^31, and request 2^32 gets the reply of request 0. */
  lemma CounterWraps(greeting: string)
    ensures WrapInt(0x8000_0000) == -0x8000_0000
    ensures NumberedReply(WrapInt(0x8000_0000), greeting).reply[..5] == "Yo #-"
    ensures NumberedReply(WrapInt(IntRange), greeting) == NumberedReply(WrapInt(0), greeting)
  {
  }

  /** The unary and server-streaming replies for the example request. */
  lemma ExampleReplies()
    ensures Greet(GreetRequest("rouz")).reply == "Hello rouz"
    ensures GreetServerStream(GreetRequest("rouz")) == [GreetReply("Hello rouz!"), GreetReply("Greetings rouz!")]
  {
    assert "Hello " + "rouz" + "!" == "Hello rouz!";
    assert "Greetings " + "rouz" + "!" == "Greetings rouz!";
  }

  /** The client-streaming replies for two example greetings and for an empty stream. */
  lemma ExampleClientStreamReplies()
    ensures ClientStreamReply(["rouz", "delavari"]).reply == "Hi to all of [rouz, delavari]!"
    ensures ClientStreamReply([]).reply == "Hi to all of []!"
  {
  }

  /** The first two bidirectional replies for the example requests. */
  lemma ExampleNumberedReplies()
    ensures NumberedReply(WrapInt(0), "rouz").reply == "Yo #0 rouz"
    ensures NumberedReply(WrapInt(1), "delavari").reply == "Yo #1 delavari"
  {
    assert SignedDecimal(0) == "0" && SignedDecimal(1) == "1";
    assert "Yo #" + "0" + " " + "rouz" == "Yo #0 rouz";
    assert "Yo #" + "1" + " " + "delavari" == "Yo #1 delavari";
  }
}
