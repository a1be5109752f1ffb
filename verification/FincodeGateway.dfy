/**
 Gateway of fincode/gateway.go: charging and authorizing in two calls, capturing, voiding and refunding,
 against a server whose replies may be lost after a call took effect. An answered client error (a status
 code that is not retryable) means the call had no effect.
 */
module FincodeGateway {
  import opened Common
  import opened Money
  import opened FincodeServer

  /** deriveOrderID; None: fincode assigns the id. */
  function DeriveOrderID(key: string): Option<OrderId> { if key == "" then None else Some(Derived(key)) }

  /** The idempotent_key header: the caller's key, or one derived from it for one of several calls. */
  datatype Header = NoHeader | Verbatim(key: string) | ForOperation(key: string, op: string)

  function VerbatimHeader(key: string): Header { if key == "" then NoHeader else Verbatim(key) }

  /** deriveIdempotencyKey, its hash taken to be injective */
  function OperationHeader(key: string, op: string): Header { if key == "" then NoHeader else ForOperation(key, op) }

  /** A caller's key goes with every call it is for, and two calls carry the same header exactly when they are
      the same operation under the same key. */
  lemma HeadersDistinguish(key: string, key': string, op: string, op': string)
    ensures VerbatimHeader(key) == NoHeader <==> key == ""
    ensures OperationHeader(key, op) == NoHeader <==> key == ""
    ensures VerbatimHeader(key) == VerbatimHeader(key') <==> key == key'
    ensures OperationHeader(key, op) == OperationHeader(key', op') <==> key == key' && (key == "" || op == op')
    ensures VerbatimHeader(key) == OperationHeader(key', op) <==> key == key' == ""
  {
  }

  /** Partial: *PartialAuthorizeError. Failed: *port.GatewayError. Invalid: *ValidationError. */
  datatype Result =
    | Success(id: OrderId, amount: int, status: Status)
    | Partial(id: OrderId, access: string)
    | Failed(retryable: bool)
    | Invalid

  /** What went over the wire: each call this gateway made, and the reply it got. */
  datatype Exchange =
    | Created(id: Option<OrderId>, key: string, job: JobCode, amount: int, reply: Reply)
    | Sent(call: Call, header: Header, reply: Reply)
    | Looked(order: OrderId, reply: Reply)

  /** A reply reported as the payment's response. */
  function Reported(v: View): Result { Success(v.id, CurrentTotal(v), v.status) }

  /** How registerAndExecute came to know the order: it registered it, fincode replayed the reply of an
      earlier registration with the key, it was found when the registration failed, or not at all. */
  datatype How = New | Replayed | Found(view: View) | Unknown

  /** The order is what a request for this job and amount asks for. */
  predicate Fits(o: Order, job: JobCode, amount: int, how: How) {
    match how
    case New => o.job == job && o.amount == amount
    case Replayed => true
    case Found(v) => o.total == amount && (v.reportsJob ==> o.job == job)
    case Unknown => false
  }

  lemma FitsStill(o: Order, o': Order, job: JobCode, amount: int, how: How)
    requires Continues(o, o') && !how.Found? && Fits(o, job, amount, how)
    ensures Fits(o', job, amount, how) && o'.key == o.key && o'.access == o.access
  {
  }

  predicate Completed(o: Order, job: JobCode, amount: int) {
    o.status == SuccessStatus(job) && o.total == amount && o.job == job
  }

  /** What a result of registerAndExecute says of the orders at the moment the last call was answered. */
  predicate Honest(o: Orders, job: JobCode, amount: int, key: string, r: Result, how: How, confirmed: bool) {
    match r
    case Success(id, reported, status) =>
      && id in o && o[id].key == key && (key != "" ==> id == Derived(key))
      && Fits(o[id], job, amount, how)
      && status == o[id].status && reported == o[id].total
      && (status == SuccessStatus(job) || (how.Replayed? && status == SuccessStatus(o[id].job)))
    case Partial(id, access) =>
      && id in o && o[id].key == key && (key != "" ==> id == Derived(key))
      && Fits(o[id], job, amount, how)
      && access == o[id].access
      && (confirmed ==> o[id].status != SuccessStatus(job))
    case Failed(retryable) =>
      !retryable && key != "" && Derived(key) in o ==> !Completed(o[Derived(key)], job, amount)
    case Invalid => false
  }

  /** A charge or authorize request; hasSource: resolvePaymentSource finds a card. */
  datatype Request = Request(threeDSecure: bool, hasSource: bool, amount: Money, key: string)

  predicate Acceptable(req: Request) { !req.threeDSecure && req.hasSource && JpyAmount(req.amount).Units? }

  // ---- which calls are made, and what their replies are reported as ----

  function Outcome(reply: Reply): Result { if reply.Answer? then Reported(reply.view) else Failed(Retryable(reply)) }

  /** Execute; only if that fails look the order up, and report a partial failure unless it is in its success
      status. */
  ghost predicate Executing(x: seq<Exchange>, order: OrderId, access: string, job: JobCode, r: Result) {
    && x != [] && x[0].Sent? && x[0] == Sent(Execute(order, access), NoHeader, x[0].reply)
    && if x[0].reply.Answer? then |x| == 1 && r == Reported(x[0].reply.view)
       else
         && |x| == 2 && x[1].Looked? && x[1].order == order
         && r == if x[1].reply.Answer? && x[1].reply.view.status == SuccessStatus(job) then Reported(x[1].reply.view)
                 else Partial(order, access)
  }

  /** What a found order is reported as; None: as the failed registration. */
  function Resolved(v: View, id: OrderId, job: JobCode, amount: int): Option<Result> {
    if CurrentTotal(v) != amount || (v.reportsJob && v.job != job) then Some(Failed(false))
    else if v.status == SuccessStatus(job) then Some(Reported(v))
    else if v.status == Unprocessed || v.status == Authorized then Some(Partial(id, v.access))
    else None
  }

  /** Register under the derived id and execute; only if the registration fails, and only with a key, look
      the derived order up. */
  ghost predicate Paying(x: seq<Exchange>, job: JobCode, amount: int, key: string, r: Result) {
    && x != [] && x[0].Created?
    && x[0] == Created(if key == "" then None else Some(Derived(key)), key, job, amount, x[0].reply)
    && var created := x[0].reply;
       if created.Answer? then Executing(x[1..], created.view.id, created.view.access, job, r)
       else if key == "" then |x| == 1 && r == Failed(Retryable(created))
       else
         && |x| == 2 && x[1].Looked? && x[1].order == Derived(key)
         && var found := x[1].reply;
            var resolved := if found.Answer? then Resolved(found.view, Derived(key), job, amount) else None;
            r == if resolved.Some? then resolved.value
                 else if found.Answer? || found == HTTPError(404) then Failed(Retryable(created))
                 else Failed(true)
  }

  /** Look the order up; execute it unless it is in its success status. */
  ghost predicate Completing(x: seq<Exchange>, job: JobCode, id: OrderId, access: string, r: Result) {
    && x != [] && x[0].Looked? && x[0].order == id
    && var found := x[0].reply;
       if !found.Answer? || found.view.status == SuccessStatus(job) then |x| == 1 && r == Outcome(found)
       else if access == "" then |x| == 1 && r == Invalid
       else |x| == 2 && x[1].Sent? && x[1] == Sent(Execute(id, access), NoHeader, x[1].reply)
            && r == Outcome(x[1].reply)
  }

  /** Change the hold only where a smaller amount is asked for; None: go on. */
  ghost predicate Adjusting(x: seq<Exchange>, id: OrderId, v: View, amount: Option<Money>, key: string,
                            failed: Option<Result>) {
    if amount.None? then x == [] && failed.None?
    else
      var a := JpyAmount(amount.value);
      if !a.Units? then x == [] && failed == Some(if a.UnsupportedCurrency? then Failed(false) else Invalid)
      else if a.v > CurrentTotal(v) then x == [] && failed == Some(Invalid)
      else if a.v == CurrentTotal(v) then x == [] && failed.None?
      else
        && |x| == 1 && x[0].Sent?
        && x[0] == Sent(Change(id, v.access, AuthJob, a.v), OperationHeader(key, "change"), x[0].reply)
        && failed == if x[0].reply.Answer? then None else Some(Failed(Retryable(x[0].reply)))
  }

  ghost predicate CapturingAs(x: seq<Exchange>, id: OrderId, amount: Option<Money>, key: string, r: Result) {
    && x != [] && x[0].Looked? && x[0].order == id
    && if !x[0].reply.Answer? then |x| == 1 && r == Failed(Retryable(x[0].reply))
       else
         var n := if |x| >= 2 && x[1].Sent? && x[1].call.Change? then 2 else 1;
         && Adjusting(x[1..n], id, x[0].reply.view, amount, key, if |x| == n then Some(r) else None)
         && (|x| > n ==>
               && |x| == n + 1 && x[n].Sent?
               && x[n] == Sent(Capture(id, x[0].reply.view.access), OperationHeader(key, "capture"), x[n].reply)
               && r == Outcome(x[n].reply))
  }

  ghost predicate VoidingAs(x: seq<Exchange>, id: OrderId, key: string, r: Result) {
    && x != [] && x[0].Looked? && x[0].order == id
    && if !x[0].reply.Answer? then |x| == 1 && r == Failed(Retryable(x[0].reply))
       else if x[0].reply.view.status == Captured then |x| == 1 && r == Failed(false)
       else |x| == 2 && x[1].Sent?
            && x[1] == Sent(Cancel(id, x[0].reply.view.access), VerbatimHeader(key), x[1].reply)
            && r == Outcome(x[1].reply)
  }

  predicate SentToRefund(x: Exchange, id: OrderId, access: string, total: int, refund: int, key: string, r: Result) {
    var c := if refund == total then Cancel(id, access) else Change(id, access, CaptureJob, total - refund);
    && x.Sent? && x == Sent(c, VerbatimHeader(key), x.reply)
    && r == if x.reply.Answer? then Success(x.reply.view.id, refund, x.reply.view.status)
            else Failed(Retryable(x.reply))
  }

  /** Refuse an amount that is not one in yen or exceeds the total shown; otherwise cancel where it is the
      total, and change the total to the difference where it is not. */
  ghost predicate RefundingAs(x: seq<Exchange>, id: OrderId, amount: Option<Money>, key: string, r: Result) {
    && x != [] && x[0].Looked? && x[0].order == id
    && if !x[0].reply.Answer? then |x| == 1 && r == Failed(Retryable(x[0].reply))
       else
         var v := x[0].reply.view;
         var a := if amount.Some? then JpyAmount(amount.value) else Units(CurrentTotal(v));
         if a.UnsupportedCurrency? then |x| == 1 && r == Failed(false)
         else if !a.Units? || a.v > CurrentTotal(v) then |x| == 1 && r == Invalid
         else
           |x| == 2 && SentToRefund(x[1], id, v.access, CurrentTotal(v), a.v, key, r)
  }

  lemma ExecutedOrLookedUp(t: seq<Exchange>, x: Exchange, y: Exchange, t': seq<Exchange>, order: OrderId,
                           access: string, job: JobCode, r: Result)
    requires x == Sent(Execute(order, access), NoHeader, x.reply)
    requires t' == t + [x] + if x.reply.Answer? then [] else [y]
    requires if x.reply.Answer? then r == Reported(x.reply.view)
             else
               && y == Looked(order, y.reply)
               && r == if y.reply.Answer? && y.reply.view.status == SuccessStatus(job) then Reported(y.reply.view)
                       else Partial(order, access)
    ensures t <= t' && Executing(t'[|t|..], order, access, job, r)
  {
    assert t'[|t|..] == if x.reply.Answer? then [x] else [x, y];
  }

  lemma CaptureStopped(t: seq<Exchange>, x: Exchange, t': seq<Exchange>, id: OrderId, amount: Option<Money>,
                       key: string, r: Result)
    requires x == Looked(id, x.reply) && t + [x] <= t'
    requires if x.reply.Answer? then Adjusting(t'[|t + [x]|..], id, x.reply.view, amount, key, Some(r))
             else t' == t + [x] && r == Failed(Retryable(x.reply))
    ensures t <= t' && CapturingAs(t'[|t|..], id, amount, key, r)
  {
    assert t'[|t|..] == [x] + t'[|t + [x]|..];
  }

  lemma CaptureSent(t: seq<Exchange>, x: Exchange, t1: seq<Exchange>, y: Exchange, id: OrderId,
                    amount: Option<Money>, key: string, r: Result)
    requires x == Looked(id, x.reply) && x.reply.Answer? && t + [x] <= t1
    requires Adjusting(t1[|t + [x]|..], id, x.reply.view, amount, key, None)
    requires y == Sent(Capture(id, x.reply.view.access), OperationHeader(key, "capture"), y.reply)
    requires r == Outcome(y.reply)
    ensures t <= t1 + [y] && CapturingAs((t1 + [y])[|t|..], id, amount, key, r)
  {
    var adjusted := t1[|t + [x]|..];
    assert (t1 + [y])[|t|..] == [x] + adjusted + [y];
    assert ([x] + adjusted + [y])[1..1 + |adjusted|] == adjusted;
  }

  lemma CompleteFound(t: seq<Exchange>, x: Exchange, job: JobCode, id: OrderId, access: string, r: Result)
    requires x == Looked(id, x.reply)
    requires if !x.reply.Answer? || x.reply.view.status == SuccessStatus(job) then r == Outcome(x.reply)
             else access == "" && r == Invalid
    ensures t <= t + [x] && Completing((t + [x])[|t|..], job, id, access, r) && (t + [x])[|t|] == x
  {
    assert (t + [x])[|t|..] == [x];
  }

  lemma CompleteSent(t: seq<Exchange>, x: Exchange, y: Exchange, job: JobCode, id: OrderId, access: string,
                     r: Result)
    requires x == Looked(id, x.reply) && x.reply.Answer? && x.reply.view.status != SuccessStatus(job)
    requires access != "" && y == Sent(Execute(id, access), NoHeader, y.reply) && r == Outcome(y.reply)
    ensures t <= t + [x] + [y] && Completing((t + [x] + [y])[|t|..], job, id, access, r)
            && (t + [x] + [y])[|t|] == x
  {
    assert (t + [x] + [y])[|t|..] == [x, y];
  }

  lemma VoidRefused(t: seq<Exchange>, x: Exchange, id: OrderId, key: string, r: Result)
    requires x == Looked(id, x.reply)
    requires if !x.reply.Answer? then r == Failed(Retryable(x.reply))
             else x.reply.view.status == Captured && r == Failed(false)
    ensures t <= t + [x] && VoidingAs((t + [x])[|t|..], id, key, r)
  {
    assert (t + [x])[|t|..] == [x];
  }

  lemma VoidSent(t: seq<Exchange>, x: Exchange, y: Exchange, id: OrderId, key: string, r: Result)
    requires x == Looked(id, x.reply) && x.reply.Answer? && x.reply.view.status != Captured
    requires y == Sent(Cancel(id, x.reply.view.access), VerbatimHeader(key), y.reply) && r == Outcome(y.reply)
    ensures t <= t + [x] + [y] && VoidingAs((t + [x] + [y])[|t|..], id, key, r)
  {
    assert (t + [x] + [y])[|t|..] == [x, y];
  }

  lemma RefundRefused(t: seq<Exchange>, x: Exchange, id: OrderId, amount: Option<Money>, key: string, r: Result)
    requires x == Looked(id, x.reply)
    requires if !x.reply.Answer? then r == Failed(Retryable(x.reply))
             else
               var a := if amount.Some? then JpyAmount(amount.value) else Units(CurrentTotal(x.reply.view));
               if a.UnsupportedCurrency? then r == Failed(false)
               else (a.Units? ==> a.v > CurrentTotal(x.reply.view)) && r == Invalid
    ensures t <= t + [x] && RefundingAs((t + [x])[|t|..], id, amount, key, r)
  {
    assert (t + [x])[|t|..] == [x];
  }

  lemma RefundSent(t: seq<Exchange>, x: Exchange, y: Exchange, id: OrderId, amount: Option<Money>, key: string,
                   a: int, r: Result)
    requires x == Looked(id, x.reply) && x.reply.Answer? && a <= CurrentTotal(x.reply.view)
    requires if amount.Some? then JpyAmount(amount.value) == Units(a) else a == CurrentTotal(x.reply.view)
    requires SentToRefund(y, id, x.reply.view.access, CurrentTotal(x.reply.view), a, key, r)
    ensures t <= t + [x] + [y] && RefundingAs((t + [x] + [y])[|t|..], id, amount, key, r)
  {
    assert (t + [x] + [y])[|t|..] == [x, y];
  }

  lemma RegisteredThenExecuted(t: seq<Exchange>, x: Exchange, t': seq<Exchange>, job: JobCode, amount: int,
                               key: string, r: Result)
    requires x.Created? && x.reply.Answer? && x == Created(DeriveOrderID(key), key, job, amount, x.reply)
    requires t + [x] <= t'
    requires Executing(t'[|t + [x]|..], x.reply.view.id, x.reply.view.access, job, r)
    ensures t <= t' && Paying(t'[|t|..], job, amount, key, r)
  {
    hide Executing;
    assert t'[|t|..][1..] == t'[|t + [x]|..];
  }

  lemma RegistrationFailed(t: seq<Exchange>, x: Exchange, job: JobCode, amount: int, r: Result)
    requires x == Created(None, "", job, amount, x.reply) && !x.reply.Answer? && r == Failed(Retryable(x.reply))
    ensures t <= t + [x] && Paying((t + [x])[|t|..], job, amount, "", r)
  {
    assert (t + [x])[|t|..] == [x];
  }

  lemma RegistrationResolved(t: seq<Exchange>, x: Exchange, y: Exchange, job: JobCode, amount: int, key: string,
                             found: Option<Result>, r: Result)
    requires key != "" && x == Created(Some(Derived(key)), key, job, amount, x.reply) && !x.reply.Answer?
    requires y == Looked(Derived(key), y.reply)
    requires found == if y.reply.Answer? then Resolved(y.reply.view, Derived(key), job, amount)
                      else if y.reply == HTTPError(404) then None else Some(Failed(true))
    requires r == if found.Some? then found.value else Failed(Retryable(x.reply))
    ensures t <= t + [x] + [y] && Paying((t + [x] + [y])[|t|..], job, amount, key, r)
  {
    assert (t + [x] + [y])[|t|..] == [x, y];
  }

  // ---- money ----

  /** What can still be refunded. */
  function Remaining(o: Order): int { if o.status == Canceled then 0 else o.total }

  function Sum(xs: seq<int>): int {
    if xs == [] then 0 else Sum(xs[..|xs| - 1]) + xs[|xs| - 1]
  }

  /** The money rule: what was charged is what remains plus what was refunded. */
  predicate Balances(o: Order, refunds: seq<int>) {
    o.charged == [] || o.charged == [Remaining(o) + Sum(refunds)]
  }

  /** At most, the card was charged the total. */
  predicate AtMostCharged(o: Order, o': Order) {
    o'.total == o.total && (o'.charged == o.charged || o'.charged == [o.total])
  }

  /** What charges alone can do, whatever replies they got: an order known before was at most charged its
      total, and a new one is for the amount and charged it at most once. */
  ghost predicate OnlyPaid(o: Orders, o': Orders, amount: int) {
    && (forall id | id in o :: id in o' && AtMostCharged(o[id], o'[id]))
    && (forall id | id in o' && id !in o ::
          o'[id].total == amount && (o'[id].charged == [] || o'[id].charged == [amount]))
  }

  lemma OnlyPaidOn(a: Orders, b: Orders, c: Orders, amount: int)
    requires OnlyPaid(a, b, amount) && OnlyPaid(b, c, amount)
    ensures OnlyPaid(a, c, amount)
  {
    forall id | id in c && id !in a
      ensures c[id].total == amount && (c[id].charged == [] || c[id].charged == [amount])
    {
      if id in b { assert AtMostCharged(b[id], c[id]); }
    }
    forall id | id in a ensures id in c && AtMostCharged(a[id], c[id]) {
      assert AtMostCharged(a[id], b[id]) && AtMostCharged(b[id], c[id]);
    }
  }

  lemma OnlyPaidSelf(o: Orders, amount: int)
    ensures OnlyPaid(o, o, amount)
  {
  }

  type Refunds = map<OrderId, seq<int>>

  function RefundsOn(refunds: Refunds, id: OrderId): seq<int> { if id in refunds then refunds[id] else [] }

  predicate InBalance(o: Orders, refunds: Refunds, id: OrderId) {
    id in o ==> Balances(o[id], RefundsOn(refunds, id))
  }

  ghost predicate KeepsBalance(o: Orders, refunds: Refunds, o': Orders, refunds': Refunds) {
    forall id | InBalance(o, refunds, id) :: InBalance(o', refunds', id)
  }

  /** Registering and executing an order: nothing is refunded yet. */
  lemma NewOrderBalances(o: Orders, refunds: Refunds, c: Call)
    requires FincodeServer.Inv(o) && Accepts(o, c) && (c.Register? || c.Execute?)
    ensures KeepsBalance(o, refunds, After(o, c), if c.Execute? then refunds[c.id := []] else refunds)
  {
    if c.Execute? { assert OrderOk(c.id, o[c.id]); }
  }

  /** What a refund of x that took effect did. */
  predicate Refunded(o: Order, x: int, o': Order) {
    && 0 < x <= Remaining(o)
    && Remaining(o') == Remaining(o) - x
    && (o'.status == Canceled <==> x == Remaining(o))
    && (o'.status != Canceled ==> o'.status == o.status)
    && Continues(o, o') && o'.charged == o.charged
  }

  lemma RefundBalances(o: Order, refunds: seq<int>, x: int, o': Order)
    requires Balances(o, refunds) && Refunded(o, x, o')
    ensures Balances(o', refunds + [x])
  {
    assert (refunds + [x])[..|refunds|] == refunds;
  }

  /** Refunds that took effect one after another; os: the states of the payment before, between and after. */
  ghost predicate RefundRun(os: seq<Order>, xs: seq<int>) {
    |os| == |xs| + 1 && forall i | 0 <= i < |xs| :: Refunded(os[i], xs[i], os[i + 1])
  }

  /** Money is conserved over every run of refunds: what remains plus everything refunded is what
      remained before, nothing is refunded that is not there, the card is never charged again, and the
      payment ends canceled exactly when all of it was refunded. */
  lemma {:induction false} RefundsConserve(os: seq<Order>, xs: seq<int>)
    requires RefundRun(os, xs) && os[0].status != Canceled && os[0].total > 0
    ensures Remaining(os[|xs|]) + Sum(xs) == Remaining(os[0]) && Remaining(os[|xs|]) >= 0
    ensures os[|xs|].charged == os[0].charged
    ensures os[|xs|].status == Canceled <==> Sum(xs) == Remaining(os[0])
    decreases |xs|
  {
    if xs != [] {
      var n := |xs| - 1;
      RefundsConserve(os[..n + 1], xs[..n]);
      assert Refunded(os[n], xs[n], os[n + 1]);
    }
  }

  /** A retried charge is compared with what is left of its order: after a partial refund only a request
      for the remainder fits, and the original request is turned down as one for another amount. */
  lemma RefundMovesTheMatch(o: Order, x: int, o': Order, v: View, amount: int)
    requires Refunded(o, x, o') && x < Remaining(o)
    ensures Fits(o', o.job, amount, Found(v)) <==> amount == o.total - x
    ensures !Fits(o', o.job, o.total, Found(v))
  {
  }

  lemma {:induction false} ElsewhereLeaves(o: Orders, cs: seq<Call>, o': Orders, id: OrderId)
    requires Follows(o, cs, o') && forall i | 0 <= i < |cs| :: cs[i].id != id
    ensures (id in o <==> id in o') && (id in o ==> o'[id] == o[id])
    decreases |cs|
  {
    if cs != [] {
      assert cs[0].id != id;
      ElsewhereLeaves(After(o, cs[0]), cs[1..], o', id);
    }
  }

  class Gateway {
    var orders: Orders
    /** The replies fincode still repeats, by header. Which endpoint they came from is not looked at. */
    var answered: map<Header, View>
    ghost var did: seq<Call>
    /** The refunds that took effect since the order was captured. */
    ghost var refunds: Refunds
    /** How often this gateway asked for an execution. */
    ghost var executions: nat
    ghost var trace: seq<Exchange>

    ghost predicate Valid()
      reads this
    {
      Follows(map[], did, orders) && NoHeader !in answered
    }

    ghost function RefundsOf(id: OrderId): seq<int>
      reads this
    {
      RefundsOn(refunds, id)
    }

    ghost predicate Balanced(id: OrderId)
      reads this
    {
      InBalance(orders, refunds, id)
    }

    lemma Reachable()
      requires Valid()
      ensures FincodeServer.Inv(orders)
    {
      RunKeepsInv(map[], did, orders);
    }

    lemma TotalPositive(id: OrderId)
      requires Valid() && id in orders
      ensures orders[id].total > 0 && OrderOk(id, orders[id])
    {
      Reachable();
    }

    lemma ChargedWithin(id: OrderId)
      requires Valid() && id in orders
      ensures |orders[id].charged| <= 1 && orders[id].total > 0
      ensures orders[id].charged != [] ==> orders[id].charged[0] > 0
    {
      Reachable();
    }

    lemma KeyedById(id: OrderId)
      requires Valid() && id in orders
      ensures if id.Derived? then orders[id].key == id.key else orders[id].key == ""
    {
      Reachable();
    }

    constructor ()
      ensures Valid() && orders == map[]
    {
      orders, answered, did, refunds := map[], map[], [], map[];
      executions, trace := 0, [];
    }

    // ---- the environment ----

    /** Any calls of other clients. Callers rely on the contract alone. */
    method Others() returns (ghost cs: seq<Call>)
      requires Valid()
      modifies this`orders, this`did
      ensures Valid() && Follows(old(orders), cs, orders)
    {
      cs := [];
    }

    method Interfere(alone: bool)
      requires Valid()
      modifies this`orders, this`did
      ensures Valid() && AllContinue(old(orders), orders)
      ensures alone ==> orders == old(orders)
    {
      Reachable();
      if !alone {
        ghost var o := orders;
        ghost var cs := Others();
        RunKeepsInv(o, cs, orders);
      }
    }

    /** Calls of other clients on other orders, under other keys: capturing and refunding one payment
        must be serialized by the caller. Callers rely on the contract alone. */
    method OthersElsewhere(id: OrderId, key: string) returns (ghost cs: seq<Call>)
      requires Valid()
      modifies this`orders, this`did, this`answered
      ensures Valid() && Follows(old(orders), cs, orders)
      ensures forall i | 0 <= i < |cs| :: cs[i].id != id
      ensures forall h: Header | !h.NoHeader? && h.key == key :: h in answered <==> h in old(answered)
    {
      cs := [];
    }

    method InterfereElsewhere(id: OrderId, key: string)
      requires Valid()
      modifies this`orders, this`did, this`answered
      ensures Valid()
      ensures (id in orders <==> id in old(orders)) && (id in orders ==> orders[id] == old(orders)[id])
      ensures forall h: Header | !h.NoHeader? && h.key == key :: h in answered <==> h in old(answered)
    {
      ghost var o := orders;
      ghost var cs := OthersElsewhere(id, key);
      ElsewhereLeaves(o, cs, orders, id);
    }

    method AnyView(id: OrderId) returns (v: View)
      requires id in orders
      ensures v.id == id && Shows(orders[id], v)
    {
      var reportsJob: bool, amount: int := *, *;
      var o := orders[id];
      if * {
        v := View(id, o.access, reportsJob, o.job, o.status, amount, o.total);
      } else {
        v := View(id, o.access, reportsJob, o.job, o.status, o.total, 0);
      }
    }

    method AnyError() returns (r: Reply)
      ensures !r.Answer?
    {
      if * {
        var code: int := *;
        r := HTTPError(code);
      } else {
        r := Lost;
      }
    }

    method Perform(c: Call)
      requires Valid() && Accepts(orders, c) && ByTheKey(c)
      modifies this`orders, this`did
      ensures Valid() && orders == After(old(orders), c) && AllContinue(old(orders), orders)
    {
      Reachable();
      CallKeepsInv(orders, c);
      ghost var o := After(orders, c);
      assert Follows(orders, [c], o) by { assert Follows(o, [c][1..], o); }
      FollowsConcat(map[], did, orders, [c], o);
      orders, did := After(orders, c), did + [c];
    }

    /** POST /v1/payments. Within the life of the header fincode answers a repeated registration with
        its first reply; otherwise it refuses an id it knows. */
    method CreatePayment(id: Option<OrderId>, key: string, job: JobCode, amount: int)
      returns (r: Reply, ghost replayed: bool)
      requires Valid() && amount > 0 && id == DeriveOrderID(key)
      modifies this`orders, this`did, this`answered, this`trace
      ensures Valid() && AllContinue(old(orders), orders)
      ensures trace == old(trace) + [Created(id, key, job, amount, r)]
      ensures KeepsBalance(old(orders), refunds, orders, refunds) && OnlyPaid(old(orders), orders, amount)
      ensures answered.Keys <= old(answered).Keys + {VerbatimHeader(key)}
      ensures r.Answer? && !replayed ==>
                && Accepts(old(orders), Register(r.view.id, key, job, amount, r.view.access))
                && orders == After(old(orders), Register(r.view.id, key, job, amount, r.view.access))
                && r.view.id in orders
                && orders[r.view.id] == Order(key, job, amount, r.view.access, amount, Unprocessed, [])
                && (id.Some? ==> r.view.id == id.value)
      ensures r.Answer? && replayed ==>
                && orders == old(orders) && id.Some? && r.view.id == id.value && id.value in orders
                && r.view.access == orders[id.value].access
    {
      Reachable();
      var serial: nat, access: string := *, *;
      var c := Register(if id.Some? then id.value else Assigned(serial), key, job, amount, access);
      replayed := false;
      if * {
        r := AnyError();
      } else if Accepts(orders, c) {
        NewOrderBalances(orders, refunds, c);
        Perform(c);
        var v := AnyView(c.id);
        if key != "" { answered := answered[Verbatim(key) := v]; }
        if * {
          r := AnyError();
        } else {
          r := Answer(v);
        }
      } else {
        r := AnyError();
        if id.Some? && id.value in orders {
          if * {
            var v := AnyView(id.value);
            r, replayed := Answer(v.(status := Unprocessed)), true;
          }
        }
      }
      trace := trace + [Created(id, key, job, amount, r)];
    }

    /** PUT /v1/payments/{id} and its /change, /capture and /cancel. */
    method Send(c: Call, header: Header) returns (r: Reply, ghost done: bool)
      requires Valid() && (c.Execute? || c.Change? || c.Capture? || c.Cancel?)
      modifies this
      ensures Valid() && AllContinue(old(orders), orders)
      ensures done ==> Accepts(old(orders), c) && orders == After(old(orders), c)
                       && c.id in old(orders) && orders[c.id] == OrderAfter(old(orders)[c.id], c)
      ensures !done ==> orders == old(orders)
      ensures refunds == if done && (c.Execute? || c.Capture?) then old(refunds)[c.id := []] else old(refunds)
      ensures r.Answer? && header !in old(answered) ==> done && r.view.id == c.id && Shows(orders[c.id], r.view)
      ensures !r.Answer? && !Retryable(r) ==> !done
      ensures answered.Keys <= old(answered).Keys + {header}
      ensures executions == old(executions) + if c.Execute? then 1 else 0
      ensures trace == old(trace) + [Sent(c, header, r)]
    {
      hide OrderAfter, Follows, OrderOk, Continues, AllContinue, Shows;
      done := false;
      AllContinueSelf(orders);
      if c.Execute? { executions := executions + 1; }
      r := AnyError();
      var keeps := *;
      if keeps && header in answered {
        r := Answer(answered[header]);
      } else if Accepts(orders, c) {
        if * {
          Perform(c);
          done := true;
          if c.Execute? || c.Capture? { refunds := refunds[c.id := []]; }
          var v := AnyView(c.id);
          if header != NoHeader { answered := answered[header := v]; }
          if * {
            r := Answer(v);
          } else {
            r := Lost;
          }
        }
      }
      trace := trace + [Sent(c, header, r)];
    }

    /** GET /v1/payments/{id} */
    method RetrievePayment(id: OrderId) returns (r: Reply)
      modifies this`trace
      ensures trace == old(trace) + [Looked(id, r)]
      ensures r.Answer? ==> id in orders && r.view.id == id && Shows(orders[id], r.view)
      ensures r == HTTPError(404) ==> id !in orders
    {
      r := AnyError();
      if id !in orders {
      } else if * {
        var v := AnyView(id);
        r := Answer(v);
      } else if r == HTTPError(404) {
        r := Lost;
      }
      trace := trace + [Looked(id, r)];
    }

    // ---- charge and authorize ----

    /** executeRegistered */
    method ExecuteRegistered(id: OrderId, access: string, ghost amount: int) returns (r: Reply)
      requires Valid()
      modifies this
      ensures Valid() && AllContinue(old(orders), orders)
      ensures r.Answer? ==>
                && id in old(orders) && r.view.id == id && r.view.status == orders[id].status
                && orders[id].status == SuccessStatus(orders[id].job)
                && CurrentTotal(r.view) == orders[id].total
      ensures r.Answer? || Retryable(r) || orders == old(orders)
      ensures OnlyPaid(old(orders), orders, amount)
      ensures KeepsBalance(old(orders), old(refunds), orders, refunds)
      ensures executions == old(executions) + 1 && trace == old(trace) + [Sent(Execute(id, access), NoHeader, r)]
      ensures id in old(orders) && old(orders)[id].status != Unprocessed ==> !r.Answer? && orders == old(orders)
    {
      ghost var done;
      ghost var o, rs := orders, refunds;
      Reachable();
      r, done := Send(Execute(id, access), NoHeader);
      if done { NewOrderBalances(o, rs, Execute(id, access)); }
      Reachable();
      if r.Answer? {
        ShownTotal(id, orders[id], r.view);
      }
    }

    /** resolveExistingOrder. None: fall back to the error of the registration. */
    method ResolveExistingOrder(id: OrderId, job: JobCode, amount: int) returns (r: Option<Result>, ghost how: How)
      requires Valid()
      modifies this`trace
      ensures Valid()
      ensures old(trace) <= trace && |trace| == |old(trace)| + 1
      ensures var x := trace[|old(trace)|];
              && x.Looked? && x.order == id
              && (if x.reply.Answer? then how == Found(x.reply.view) && r == Resolved(x.reply.view, id, job, amount)
                  else how == Unknown && r == if x.reply == HTTPError(404) then None else Some(Failed(true)))
      ensures how.Unknown? || (how.Found? && id in orders && Shows(orders[id], how.view))
      ensures how.Unknown? ==> r == Some(Failed(true)) || (r == None && id !in orders)
      ensures how.Found? && orders[id].status != Canceled ==>
                var o := orders[id];
                && (r == Some(Failed(false)) <==> !Fits(o, job, amount, how))
                && (r.Some? && r.value.Success? <==> Fits(o, job, amount, how) && o.status == SuccessStatus(job))
                && (r == Some(Partial(id, o.access)) <==>
                      Fits(o, job, amount, how) && o.status != SuccessStatus(job)
                      && (o.status == Unprocessed || o.status == Authorized))
                && (r == None <==> Fits(o, job, amount, how) && o.status != SuccessStatus(job)
                                   && o.status != Unprocessed && o.status != Authorized)
      ensures how.Found? && orders[id].status == Canceled ==> r == None || r == Some(Failed(false))
      ensures r.Some? && r.value.Success? ==> r == Some(Success(id, orders[id].total, orders[id].status))
    {
      Reachable();
      var reply := RetrievePayment(id);
      if !reply.Answer? {
        return if reply == HTTPError(404) then None else Some(Failed(true)), Unknown;
      }
      var current := reply.view;
      assert OrderOk(id, orders[id]);
      how := Found(current);
      if CurrentTotal(current) != amount {
        return Some(Failed(false)), how;
      }
      if current.reportsJob && current.job != job {
        return Some(Failed(false)), how;
      }
      if current.status == SuccessStatus(job) {
        return Some(Success(current.id, CurrentTotal(current), current.status)), how;
      }
      if current.status == Unprocessed || current.status == Authorized {
        return Some(Partial(id, current.access)), how;
      }
      return None, how;
    }

    /** The second half of registerAndExecute, once the order is registered: execute, and if that fails
        look the order up before reporting a partial failure. */
    method ExecuteAndConfirm(order: OrderId, access: string, job: JobCode, ghost amount: int, ghost how: How,
                             alone: bool)
      returns (r: Result, ghost confirmed: bool)
      requires Valid() && order in orders && orders[order].access == access
      requires orders[order].key != "" ==> order == Derived(orders[order].key)
      requires !how.Found? && Fits(orders[order], job, amount, how)
      modifies this
      ensures Valid() && AllContinue(old(orders), orders)
      ensures Honest(orders, job, amount, old(orders)[order].key, r, how, confirmed)
      ensures (r.Success? || r.Partial?) && r.id == order
      ensures old(trace) <= trace && Executing(trace[|old(trace)|..], order, access, job, r)
      ensures confirmed <==> r.Partial? && trace[|trace| - 1].reply.Answer?
      ensures alone ==> KeepsBalance(old(orders), old(refunds), orders, refunds)
                        && OnlyPaid(old(orders), orders, amount)
      ensures executions == old(executions) + 1
    {
      hide After, Accepts, Follows, OrderOk, InBalance, OnlyPaid, Executing, CurrentTotal, Retryable, Continues, Fits;
      OnlyPaidSelf(orders, amount);
      ghost var o0 := orders;
      Interfere(alone);
      ghost var o1 := orders;
      confirmed := false;
      var reply := ExecuteRegistered(order, access, amount);
      ghost var x := Sent(Execute(order, access), NoHeader, reply);
      ContinuesOn(o0, o1, orders);
      FitsStill(o0[order], orders[order], job, amount, how);
      if reply.Answer? {
        ExecutedOrLookedUp(old(trace), x, x, trace, order, access, job, Reported(reply.view));
        return Success(reply.view.id, CurrentTotal(reply.view), reply.view.status), confirmed;
      }
      ghost var o2 := orders;
      Interfere(alone);
      ContinuesOn(o0, o2, orders);
      Reachable();
      FitsStill(o0[order], orders[order], job, amount, how);
      var current := RetrievePayment(order);
      ExecutedOrLookedUp(old(trace), x, Looked(order, current), trace, order, access, job,
                         if current.Answer? && current.view.status == SuccessStatus(job) then Reported(current.view)
                         else Partial(order, access));
      if current.Answer? && current.view.status == SuccessStatus(job) {
        ShownTotal(order, orders[order], current.view);
        return Success(current.view.id, CurrentTotal(current.view), current.view.status), confirmed;
      }
      confirmed := current.Answer?;
      return Partial(order, access), confirmed;
    }

    /** registerAndExecute. Unless it is alone, others may do anything between the calls. confirmed: the
        order was looked up after its registration or its execution failed. */
    method RegisterAndExecute(job: JobCode, amount: int, key: string, alone: bool)
      returns (r: Result, ghost how: How, ghost confirmed: bool)
      requires Valid() && amount > 0
      modifies this
      ensures Valid() && AllContinue(old(orders), orders)
      ensures Honest(orders, job, amount, key, r, how, confirmed)
      ensures alone ==> KeepsBalance(old(orders), old(refunds), orders, refunds)
      ensures alone ==> OnlyPaid(old(orders), orders, amount)
      ensures alone && how.New? && (r.Success? || r.Partial?) ==> r.id !in old(orders)
      ensures executions == old(executions) + if how.New? || how.Replayed? then 1 else 0
      ensures old(trace) <= trace && Paying(trace[|old(trace)|..], job, amount, key, r)
    {
      hide After, Accepts, Follows, OrderOk, Shows, InBalance, OnlyPaid, Continues, CurrentTotal;
      hide Paying, Executing, Resolved;
      how, confirmed := Unknown, false;
      ghost var o0, t := orders, trace;
      Interfere(alone);
      ghost var o1 := orders;
      var id := DeriveOrderID(key);
      var created;
      ghost var replayed;
      created, replayed := CreatePayment(id, key, job, amount);
      ghost var x := trace[|t|];
      assert trace == t + [x];
      ghost var o2 := orders;
      ContinuesOn(o0, o1, o2);
      if !created.Answer? {
        if id.Some? {
          Interfere(alone);
          ContinuesOn(o0, o2, orders);
          var existing;
          existing, how := ResolveExistingOrder(id.value, job, amount);
          ghost var y := trace[|t| + 1];
          assert trace == t + [x] + [y];
          RegistrationResolved(t, x, y, job, amount, key, existing,
                               if existing.Some? then existing.value else Failed(Retryable(created)));
          if id.value in orders { KeyedById(id.value); }
          if existing.Some? {
            confirmed := how.Found?;
            return existing.value, how, confirmed;
          }
        } else {
          RegistrationFailed(t, x, job, amount, Failed(Retryable(created)));
        }
        return Failed(Retryable(created)), how, confirmed;
      }
      how := if replayed then Replayed else New;
      KeyedById(created.view.id);
      r, confirmed := ExecuteAndConfirm(created.view.id, created.view.access, job, amount, how, alone);
      RegisteredThenExecuted(t, x, trace, job, amount, key, r);
      ContinuesOn(o0, o2, orders);
      if alone { OnlyPaidOn(o0, o2, orders, amount); }
    }

    /** Charge (job CaptureJob) and Authorize (job AuthJob). A request that fails validation makes no call. */
    method Pay(job: JobCode, req: Request, alone: bool)
      returns (r: Result, ghost how: How, ghost confirmed: bool)
      requires Valid()
      modifies this
      ensures Valid() && AllContinue(old(orders), orders)
      ensures Acceptable(req) ==> Honest(orders, job, JpyAmount(req.amount).v, req.key, r, how, confirmed)
      ensures alone ==> KeepsBalance(old(orders), old(refunds), orders, refunds)
      ensures Acceptable(req) && alone ==> OnlyPaid(old(orders), orders, JpyAmount(req.amount).v)
      ensures Acceptable(req) && alone && how.New? && (r.Success? || r.Partial?) ==> r.id !in old(orders)
      ensures old(trace) <= trace
      ensures Acceptable(req) ==> Paying(trace[|old(trace)|..], job, JpyAmount(req.amount).v, req.key, r)
      ensures !Acceptable(req) ==>
                && orders == old(orders) && trace == old(trace)
                && r == if req.threeDSecure then Failed(false)
                        else if req.hasSource && !req.amount.currency.JPY? then Failed(false)
                        else Invalid
      ensures executions == old(executions) + if how.New? || how.Replayed? then 1 else 0
    {
      Reachable();
      how, confirmed := Unknown, false;
      if req.threeDSecure {
        return Failed(false), how, confirmed;
      }
      if !req.hasSource {
        return Invalid, how, confirmed;
      }
      var amount := JpyAmount(req.amount);
      if !amount.Units? {
        return if amount.UnsupportedCurrency? then Failed(false) else Invalid, how, confirmed;
      }
      r, how, confirmed := RegisterAndExecute(job, amount.v, req.key, alone);
    }

    /** retrieve; None: no id was given. */
    method Retrieve(id: Option<OrderId>) returns (r: Option<Reply>)
      modifies this`trace
      ensures r.None? <==> id.None?
      ensures trace == if id.None? then old(trace) else old(trace) + [Looked(id.value, r.value)]
      ensures r.Some? && r.value.Answer? ==>
                id.value in orders && r.value.view.id == id.value && Shows(orders[id.value], r.value.view)
    {
      if id.None? {
        return None;
      }
      var reply := RetrievePayment(id.value);
      r := Some(reply);
    }

    /** CompleteCharge (job CaptureJob) and CompleteAuthorize (job AuthJob): an order already in its
        success status is reported as it is, without executing it again. lookup: how the order was looked
        up. For an order in its success status the error is final exactly when that lookup was refused. */
    method Complete(job: JobCode, id: Option<OrderId>, access: string, hasSource: bool, alone: bool,
                    ghost amount: int)
      returns (r: Result, ghost lookup: Option<Reply>)
      requires Valid()
      modifies this
      ensures Valid() && AllContinue(old(orders), orders)
      ensures alone ==> KeepsBalance(old(orders), old(refunds), orders, refunds)
      ensures alone ==> OnlyPaid(old(orders), orders, amount)
      ensures old(trace) <= trace && (lookup.Some? <==> hasSource && id.Some?)
      ensures lookup.None? ==> trace == old(trace) && r == Invalid
      ensures lookup.Some? && id.Some? ==>
                Completing(trace[|old(trace)|..], job, id.value, access, r) && lookup == Some(trace[|old(trace)|].reply)
      ensures r.Success? ==>
                && id.Some? && r.id == id.value && r.id in orders
                && r.status == orders[r.id].status && r.amount == orders[r.id].total
                && (r.status == SuccessStatus(job) || r.status == SuccessStatus(orders[r.id].job))
      ensures alone && hasSource && id.Some? && id.value in old(orders)
              && old(orders)[id.value].status == SuccessStatus(job) ==>
                && orders == old(orders) && executions == old(executions)
                && lookup.Some?
                && (r.Success? <==> lookup.value.Answer?)
                && (r == Failed(false) <==> !lookup.value.Answer? && !Retryable(lookup.value))
                && (r == Failed(true) <==> Retryable(lookup.value))
      ensures executions <= old(executions) + 1
      ensures alone && r == Failed(false) && lookup.Some? && id.Some? && lookup.value.Answer? ==>
                id.value in orders && orders[id.value].status != SuccessStatus(job)
      ensures alone && r == Invalid ==> orders == old(orders)
      ensures !r.Partial?
    {
      hide After, Accepts, Follows, OrderOk, InBalance, OnlyPaid, Completing;
      OnlyPaidSelf(orders, amount);
      Reachable();
      lookup := None;
      AllContinueSelf(orders);
      if !hasSource {
        return Invalid, lookup;
      }
      Interfere(alone);
      ghost var o1 := orders;
      var current := Retrieve(id);
      lookup := current;
      if current.None? {
        return Invalid, lookup;
      }
      ghost var x := Looked(id.value, current.value);
      if !current.value.Answer? {
        CompleteFound(old(trace), x, job, id.value, access, Failed(Retryable(current.value)));
        return Failed(Retryable(current.value)), lookup;
      }
      Reachable();
      var view := current.value.view;
      if view.status == SuccessStatus(job) {
        ShownTotal(id.value, orders[id.value], view);
        CompleteFound(old(trace), x, job, id.value, access, Reported(view));
        return Success(view.id, CurrentTotal(view), view.status), lookup;
      }
      if access == "" {
        CompleteFound(old(trace), x, job, id.value, access, Invalid);
        return Invalid, lookup;
      }
      Interfere(alone);
      ghost var o2 := orders;
      ContinuesOn(old(orders), o1, o2);
      var reply := ExecuteRegistered(id.value, access, amount);
      ContinuesOn(old(orders), o2, orders);
      CompleteSent(old(trace), x, Sent(Execute(id.value, access), NoHeader, reply), job, id.value, access,
                   Outcome(reply));
      if !reply.Answer? {
        return Failed(Retryable(reply)), lookup;
      }
      return Success(reply.view.id, CurrentTotal(reply.view), reply.view.status), lookup;
    }

    /** Whatever clients did through this adapter: if every charge with the key asked for this amount,
        no order of that key but the derived one exists, and it was charged once at most, for the amount. */
    lemma NeverChargedTwice(key: string, amount: int)
      requires Valid() && key != "" && OneRequest(did, key, amount)
      ensures forall id | id in orders && orders[id].key == key ::
                id == Derived(key) && (orders[id].charged == [] || orders[id].charged == [amount])
    {
      ChargedAtMostOncePerKey(did, orders, key, amount);
    }

    /** A charge that registered its order and reports success has charged the card, once, the amount asked. */
    lemma SuccessMeansCharged(r: Result, amount: int, key: string, confirmed: bool)
      requires Valid() && r.Success? && Honest(orders, CaptureJob, amount, key, r, New, confirmed)
      ensures orders[r.id].charged == [amount]
    {
      Reachable();
      assert OrderOk(r.id, orders[r.id]);
    }

    // ---- capture, void and refund; on one payment these are serialized ----

    /** The change of the hold before a capture, where the amounts differ. */
    method LowerHold(order: OrderId, access: string, newTotal: int, key: string) returns (reply: Reply)
      requires Valid() && order in orders && 0 < newTotal
      requires orders[order].status != Canceled ==> newTotal < orders[order].total
      modifies this
      ensures Valid() && (old(Balanced(order)) ==> Balanced(order))
      ensures order in orders && Continues(old(orders)[order], orders[order])
      ensures orders[order] == old(orders)[order]
              || (old(orders)[order].status == Authorized && orders[order] == old(orders)[order].(total := newTotal))
      ensures orders[order].charged == old(orders)[order].charged && orders[order].total <= old(orders)[order].total
      ensures OperationHeader(key, "change") !in old(answered) && reply.Answer? ==>
                old(orders)[order].status == Authorized && orders[order].total == newTotal
      ensures answered.Keys <= old(answered).Keys + {OperationHeader(key, "change")}
      ensures trace == old(trace)
                       + [Sent(Change(order, access, AuthJob, newTotal), OperationHeader(key, "change"), reply)]
    {
      hide After, Follows;
      TotalPositive(order);
      ghost var done;
      reply, done := Send(Change(order, access, AuthJob, newTotal), OperationHeader(key, "change"));
    }

    method CaptureOrder(order: OrderId, access: string, key: string) returns (r: Result)
      requires Valid() && order in orders
      modifies this
      ensures old(trace) <= trace && |trace| == |old(trace)| + 1
      ensures var x := trace[|old(trace)|];
              && x.Sent? && x == Sent(Capture(order, access), OperationHeader(key, "capture"), x.reply)
              && r == Outcome(x.reply)
      ensures Valid() && (old(Balanced(order)) ==> Balanced(order))
      ensures order in orders && Continues(old(orders)[order], orders[order])
      ensures AtMostCharged(old(orders)[order], orders[order])
      ensures r.Success? || r.Failed?
      ensures r == Failed(false) ==> orders == old(orders)
      ensures r.Success? && OperationHeader(key, "capture") !in old(answered) ==>
                var o, o' := old(orders)[order], orders[order];
                && o.status == Authorized && o'.status == Captured && r.id == order && r.status == Captured
                && o'.charged == [r.amount] && o'.total == r.amount
    {
      hide After, Follows;
      Reachable();
      assert OrderOk(order, orders[order]);
      var reply;
      ghost var done;
      reply, done := Send(Capture(order, access), OperationHeader(key, "capture"));
      if !reply.Answer? {
        return Failed(Retryable(reply));
      }
      if done {
        Reachable();
        if Shows(orders[order], reply.view) { ShownTotal(order, orders[order], reply.view); }
      }
      r := Success(reply.view.id, CurrentTotal(reply.view), reply.view.status);
    }

    /** The amount check of a capture, and the change of the hold where the amounts differ. None: go on. */
    method AdjustHold(order: OrderId, view: View, amount: Option<Money>, key: string) returns (failed: Option<Result>)
      requires Valid() && order in orders && Shows(orders[order], view)
      modifies this
      ensures Valid() && (old(Balanced(order)) ==> Balanced(order))
      ensures order in orders && Continues(old(orders)[order], orders[order])
      ensures var o, o' := old(orders)[order], orders[order];
              o'.status == o.status && o'.charged == o.charged && o'.total <= o.total
      ensures failed.Some? ==> failed.value.Failed? || failed.value == Invalid
      ensures failed == Some(Invalid) || amount.None? ==> orders[order] == old(orders)[order]
      ensures amount.None? ==> failed.None?
      ensures amount.Some? && failed.None? && old(orders)[order].status != Canceled
              && OperationHeader(key, "change") !in old(answered) ==>
                JpyAmount(amount.value) == Units(orders[order].total)
      ensures amount.Some? && old(orders)[order].status != Canceled
              && JpyAmount(amount.value).Units? && JpyAmount(amount.value).v > old(orders)[order].total ==>
                failed == Some(Invalid)
      ensures OperationHeader(key, "capture") !in old(answered) ==> OperationHeader(key, "capture") !in answered
      ensures old(trace) <= trace && Adjusting(trace[|old(trace)|..], order, view, amount, key, failed)
    {
      hide After, Follows, OrderOk, Balances;
      TotalPositive(order);
      if orders[order].status != Canceled { ShownTotal(order, orders[order], view); }
      failed := None;
      if amount.Some? {
        var a := JpyAmount(amount.value);
        if !a.Units? {
          return Some(if a.UnsupportedCurrency? then Failed(false) else Invalid);
        }
        var authorized := CurrentTotal(view);
        if a.v > authorized {
          return Some(Invalid);
        }
        if a.v != authorized {
          InterfereElsewhere(order, key);
          var changed := LowerHold(order, view.access, a.v, key);
          if !changed.Answer? {
            return Some(Failed(Retryable(changed)));
          }
        }
      }
    }

    /** Capture. The two calls it may make carry different headers, so the reply kept for the first
        cannot stand in for the second. */
    method CaptureHold(id: Option<OrderId>, amount: Option<Money>, key: string) returns (r: Result)
      requires Valid()
      modifies this
      ensures old(trace) <= trace
      ensures id.None? ==> r == Invalid && trace == old(trace)
      ensures id.Some? ==> CapturingAs(trace[|old(trace)|..], id.value, amount, key, r)
      ensures Valid() && (id.Some? && old(Balanced(id.value)) ==> Balanced(id.value))
      ensures id.Some? && id.value in old(orders) ==>
                && id.value in orders && Continues(old(orders)[id.value], orders[id.value])
                && orders[id.value].total <= old(orders)[id.value].total
                && (orders[id.value].charged == old(orders)[id.value].charged
                    || orders[id.value].charged == [orders[id.value].total])
      ensures r.Success? ==> id.Some? && id.value in old(orders)
      ensures r.Success? && OperationHeader(key, "change") !in old(answered)
              && OperationHeader(key, "capture") !in old(answered) ==>
                var o, o' := old(orders)[id.value], orders[id.value];
                && o.status == Authorized && o'.status == Captured && r.id == id.value && r.status == Captured
                && o'.charged == [r.amount] && o'.total == r.amount <= o.total
                && (if amount.Some? then JpyAmount(amount.value) == Units(r.amount) else r.amount == o.total)
      ensures !r.Success? && r != Failed(true) && id.Some? && id.value in old(orders) ==>
                orders[id.value].charged == old(orders)[id.value].charged
      ensures r == Invalid && id.Some? && id.value in old(orders) ==> orders[id.value] == old(orders)[id.value]
      ensures amount.Some? && id.Some? && id.value in old(orders) && old(orders)[id.value].status != Canceled
              && JpyAmount(amount.value).Units? && JpyAmount(amount.value).v > old(orders)[id.value].total ==>
                !r.Success? && orders[id.value] == old(orders)[id.value]
    {
      hide After, Follows, OrderOk, Balances, Shows, JpyAmount, CurrentTotal, RefundsOn;
      hide CapturingAs, Adjusting, Outcome;
      if id.None? {
        return Invalid;
      }
      var order := id.value;
      InterfereElsewhere(order, key);
      var current := Retrieve(id);
      ghost var x := Looked(order, current.value);
      assert trace == old(trace) + [x];
      if !current.value.Answer? {
        CaptureStopped(old(trace), x, trace, order, amount, key, Failed(Retryable(current.value)));
        return Failed(Retryable(current.value));
      }
      var view := current.value.view;
      var failed := AdjustHold(order, view, amount, key);
      if failed.Some? {
        CaptureStopped(old(trace), x, trace, order, amount, key, failed.value);
        return failed.value;
      }
      InterfereElsewhere(order, key);
      ghost var t := trace;
      r := CaptureOrder(order, view.access, key);
      assert trace == t + [trace[|t|]];
      CaptureSent(old(trace), x, t, trace[|t|], order, amount, key, r);
    }

    /** Void. A captured payment is refused; after it nothing remains of a hold. */
    method Void(id: Option<OrderId>, key: string) returns (r: Result)
      requires Valid()
      modifies this
      ensures old(trace) <= trace
      ensures id.None? ==> r == Invalid && trace == old(trace)
      ensures id.Some? ==> VoidingAs(trace[|old(trace)|..], id.value, key, r)
      ensures Valid() && (id.Some? && old(Balanced(id.value)) ==> Balanced(id.value))
      ensures r.Success? ==> id.Some? && id.value in old(orders) && old(orders)[id.value].status != Captured
      ensures id.Some? && id.value in old(orders) ==>
                && id.value in orders && orders[id.value].charged == old(orders)[id.value].charged
                && orders[id.value].total == old(orders)[id.value].total
                && (old(orders)[id.value].status == Captured || (!r.Success? && r != Failed(true)) ==>
                      orders[id.value] == old(orders)[id.value])
      ensures r.Success? && VerbatimHeader(key) !in old(answered) ==>
                orders[id.value].status == Canceled && old(orders)[id.value].status != Canceled
    {
      hide Follows, VoidingAs;
      if id.None? {
        return Invalid;
      }
      var order := id.value;
      InterfereElsewhere(order, key);
      var current := Retrieve(id);
      ghost var x := Looked(order, current.value);
      if !current.value.Answer? {
        VoidRefused(old(trace), x, order, key, Failed(Retryable(current.value)));
        return Failed(Retryable(current.value));
      }
      if current.value.view.status == Captured {
        VoidRefused(old(trace), x, order, key, Failed(false));
        return Failed(false);
      }
      InterfereElsewhere(order, key);
      Reachable();
      assert OrderOk(order, orders[order]);
      var reply;
      ghost var done;
      reply, done := Send(Cancel(order, current.value.view.access), VerbatimHeader(key));
      VoidSent(old(trace), x, trace[|old(trace)| + 1], order, key, Outcome(reply));
      if !reply.Answer? {
        return Failed(Retryable(reply));
      }
      r := Success(reply.view.id, CurrentTotal(reply.view), reply.view.status);
    }

    /** The call a refund makes: a cancel if nothing is to remain, a change of the total otherwise. */
    method RefundOrder(order: OrderId, access: string, total: int, refund: int, key: string)
      returns (r: Result, ghost x: Option<int>)
      requires Valid() && order in orders && refund <= total
      requires orders[order].status != Canceled ==> orders[order].total == total && 0 < refund
      modifies this
      ensures old(trace) <= trace && |trace| == |old(trace)| + 1
      ensures SentToRefund(trace[|old(trace)|], order, access, total, refund, key, r)
      ensures Valid() && (old(Balanced(order)) ==> Balanced(order)) && order in orders
      ensures x.Some? ==> x.value == refund && Refunded(old(orders)[order], refund, orders[order])
                          && RefundsOf(order) == old(RefundsOf(order)) + [refund]
      ensures x.Some? ==> old(orders)[order].status != Canceled && orders[order].total <= old(orders)[order].total
      ensures x.None? ==> orders == old(orders) && refunds == old(refunds)
      ensures r.Success? && VerbatimHeader(key) !in old(answered) ==> x.Some? && r.id == order
      ensures r.Success? ==> r.amount == refund
      ensures r.Success? || r.Failed?
      ensures r == Failed(false) ==> x.None?
    {
      hide After, Follows, Balances, OrderOk;
      Reachable();
      ghost var was := orders[order];
      assert was.status != Canceled ==>
          Refunded(was, refund, if refund == total then was.(status := Canceled) else was.(total := total - refund));
      var reply;
      ghost var done;
      x := None;
      if refund == total {
        reply, done := Send(Cancel(order, access), VerbatimHeader(key));
      } else {
        reply, done := Send(Change(order, access, CaptureJob, total - refund), VerbatimHeader(key));
      }
      if done {
        if Balances(was, RefundsOf(order)) { RefundBalances(was, RefundsOf(order), refund, orders[order]); }
        x := Some(refund);
        refunds := refunds[order := RefundsOf(order) + [refund]];
      }
      if !reply.Answer? {
        return Failed(Retryable(reply)), x;
      }
      return Success(reply.view.id, refund, reply.view.status), x;
    }

    /** Refund. x: what was refunded, if the refund took effect, whether or not its reply arrived.
        What remains goes down by exactly x, and the payment is canceled exactly when nothing remains. */
    method Refund(id: Option<OrderId>, amount: Option<Money>, key: string) returns (r: Result, ghost x: Option<int>)
      requires Valid()
      modifies this
      ensures old(trace) <= trace
      ensures id.None? ==> r == Invalid && trace == old(trace)
      ensures id.Some? ==> RefundingAs(trace[|old(trace)|..], id.value, amount, key, r)
      ensures Valid() && (id.Some? && old(Balanced(id.value)) ==> Balanced(id.value))
      ensures x.Some? ==>
                && id.Some? && id.value in old(orders) && id.value in orders
                && orders[id.value].total <= old(orders)[id.value].total
                && Refunded(old(orders)[id.value], x.value, orders[id.value])
                && RefundsOf(id.value) == old(RefundsOf(id.value)) + [x.value]
                && (if amount.Some? then JpyAmount(amount.value) == Units(x.value)
                    else x.value == Remaining(old(orders)[id.value]))
      ensures x.None? && id.Some? && id.value in old(orders) ==>
                && id.value in orders && orders[id.value] == old(orders)[id.value]
                && RefundsOf(id.value) == old(RefundsOf(id.value))
      ensures r.Success? && VerbatimHeader(key) !in old(answered) ==> x == Some(r.amount) && r.id == id.value
      ensures !r.Success? && r != Failed(true) ==> x == None
    {
      hide After, Follows, Balances, OrderOk, Refunded, RefundingAs, SentToRefund, CurrentTotal, Shows, RefundsOn;
      x := None;
      if id.None? {
        return Invalid, x;
      }
      var order := id.value;
      InterfereElsewhere(order, key);
      var current := Retrieve(id);
      ghost var looked := Looked(order, current.value);
      if !current.value.Answer? {
        RefundRefused(old(trace), looked, order, amount, key, Failed(Retryable(current.value)));
        return Failed(Retryable(current.value)), x;
      }
      var view := current.value.view;
      var total := CurrentTotal(view);
      TotalPositive(order);
      if orders[order].status != Canceled { ShownTotal(order, orders[order], view); }
      var refund := total;
      if amount.Some? {
        var a := JpyAmount(amount.value);
        if !a.Units? {
          r := if a.UnsupportedCurrency? then Failed(false) else Invalid;
          RefundRefused(old(trace), looked, order, amount, key, r);
          return;
        }
        refund := a.v;
      }
      if refund > total {
        RefundRefused(old(trace), looked, order, amount, key, Invalid);
        return Invalid, x;
      }
      InterfereElsewhere(order, key);
      r, x := RefundOrder(order, view.access, total, refund, key);
      ghost var y := trace[|old(trace)| + 1];
      assert trace == old(trace) + [looked] + [y];
      RefundSent(old(trace), looked, y, order, amount, key, refund, r);
    }
  }

  // ---- the whole life of a payment ----

  datatype Op =
    | Capturing(amount: Option<Money>, key: string)
    | Voiding(key: string)
    | Refunding(amount: Option<Money>, key: string)

  /** What a payment of `hold` yen may look like: it was charged at most once and for no more than was
      asked, and all that was charged either remains or was refunded. */
  predicate MoneyKept(o: Order, refunds: seq<int>, hold: int) {
    && 0 < o.total <= hold && 0 <= Remaining(o)
    && (o.charged == []
        || (|o.charged| == 1 && 0 < o.charged[0] <= hold && o.charged[0] == Remaining(o) + Sum(refunds)))
  }

  /** Charge or authorize until it succeeds, or the retries are used up. */
  method PayAgain(g: Gateway, job: JobCode, req: Request, retries: nat) returns (paid: Result)
    requires g.Valid() && Acceptable(req)
    modifies g
    ensures g.Valid() && OnlyPaid(old(g.orders), g.orders, JpyAmount(req.amount).v)
    ensures KeepsBalance(old(g.orders), old(g.refunds), g.orders, g.refunds)
    ensures paid.Success? || paid.Partial? ==> paid.id in g.orders
  {
    hide OnlyPaid, InBalance, Follows;
    ghost var how, confirmed;
    ghost var amount := JpyAmount(req.amount).v;
    paid, how, confirmed := g.Pay(job, req, true);
    for i := 0 to retries
      invariant g.Valid() && OnlyPaid(old(g.orders), g.orders, amount)
      invariant KeepsBalance(old(g.orders), old(g.refunds), g.orders, g.refunds)
      invariant paid.Success? || paid.Partial? ==> paid.id in g.orders
    {
      if !paid.Success? {
        ghost var before := g.orders;
        paid, how, confirmed := g.Pay(job, req, true);
        OnlyPaidOn(old(g.orders), before, g.orders, amount);
      }
    }
  }

  /** A client charges or authorizes, again as often as it likes, completes the payment if that failed
      half-way, and then captures, voids and refunds it any number of times, one call after the other. Any
      reply may be lost, that of the registration included, and others work on other payments meanwhile.
      If the order is not older than the client, then at the end, as at every moment between two calls, no
      money is missing and none was taken twice. */
  method PaymentLife(g: Gateway, job: JobCode, req: Request, retries: nat, ops: seq<Op>)
    returns (paid: Result, results: seq<Result>)
    requires g.Valid() && Acceptable(req)
    modifies g
    ensures g.Valid()
    ensures (paid.Success? || paid.Partial?) && paid.id !in old(g.orders) ==>
              && paid.id in g.orders
              && MoneyKept(g.orders[paid.id], g.RefundsOf(paid.id), JpyAmount(req.amount).v)
  {
    results := [];
    paid := PayAgain(g, job, req, retries);
    if !paid.Success? && !paid.Partial? {
      return;
    }
    var id := paid.id;
    ghost var hold := JpyAmount(req.amount).v;
    ghost var mine := id !in old(g.orders);
    if paid.Partial? {
      var completed;
      ghost var lookup;
      completed, lookup := g.Complete(job, Some(id), paid.access, req.hasSource, true, hold);
      results := [completed];
    }
    g.ChargedWithin(id);
    for i := 0 to |ops|
      invariant g.Valid() && id in g.orders
      invariant mine ==> g.Balanced(id) && g.orders[id].total <= hold
      invariant mine ==> g.orders[id].charged == [] || g.orders[id].charged[0] <= hold
    {
      var r;
      match ops[i] {
        case Capturing(amount, key) => r := g.CaptureHold(Some(id), amount, key);
        case Voiding(key) => r := g.Void(Some(id), key);
        case Refunding(amount, key) =>
          ghost var x;
          r, x := g.Refund(Some(id), amount, key);
      }
      results := results + [r];
    }
    g.ChargedWithin(id);
  }
}
