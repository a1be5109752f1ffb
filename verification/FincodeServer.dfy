/**
 fincode as the adapter of fincode/gateway.go sees it: a map of orders that any number of clients change
 by calls. Registering an id twice is refused, an order is executed only while UNPROCESSED, a CANCELED
 order refuses everything, a change of the total is accepted in the status its job code names, and every
 mutating call must carry the order's access id.
 */
module FincodeServer {

  /** What deriveOrderID gives for a key, or what fincode assigns. The hash behind deriveOrderID is
      taken to be injective and to clash with no assigned id. */
  datatype OrderId = Derived(key: string) | Assigned(serial: nat)

  datatype JobCode = CaptureJob | AuthJob

  datatype Status = Unprocessed | Checked | Authenticated | Authorized | Captured | Canceled

  /** amount: what was registered; total: what it is now; charged: every amount taken from the card. */
  datatype Order = Order(
    key: string, job: JobCode, amount: int, access: string, total: int, status: Status, charged: seq<int>)

  type Orders = map<OrderId, Order>

  /** A call that takes effect. SetAside: 3-D Secure or a card check, which the adapter never asks for. */
  datatype Call =
    | Register(id: OrderId, key: string, job: JobCode, amount: int, access: string)
    | Execute(id: OrderId, access: string)
    | Change(id: OrderId, access: string, job: JobCode, newTotal: int)
    | Capture(id: OrderId, access: string)
    | Cancel(id: OrderId, access: string)
    | SetAside(id: OrderId, to: Status)

  function SuccessStatus(job: JobCode): Status { if job == AuthJob then Authorized else Captured }

  predicate Accepts(o: Orders, c: Call) {
    match c
    case Register(id, _, _, amount, access) => id !in o && amount > 0 && access != ""
    case Execute(id, access) => id in o && o[id].access == access && o[id].status == Unprocessed
    case Change(id, access, job, newTotal) =>
      id in o && o[id].access == access && newTotal > 0 && o[id].status == SuccessStatus(job)
    case Capture(id, access) => id in o && o[id].access == access && o[id].status == Authorized
    case Cancel(id, access) => id in o && o[id].access == access && o[id].status != Canceled
    case SetAside(id, to) => id in o && o[id].status == Unprocessed && (to == Checked || to == Authenticated)
  }

  function Taken(o: Order): Order { o.(status := Captured, charged := o.charged + [o.total]) }

  function OrderAfter(o: Order, c: Call): Order {
    match c
    case Register(_, _, _, _, _) => o
    case Execute(_, _) => if o.job == AuthJob then o.(status := Authorized) else Taken(o)
    case Change(_, _, _, newTotal) => o.(total := newTotal)
    case Capture(_, _) => Taken(o)
    case Cancel(_, _) => o.(status := Canceled)
    case SetAside(_, to) => o.(status := to)
  }

  function After(o: Orders, c: Call): Orders
    requires Accepts(o, c)
  {
    if c.Register? then o[c.id := Order(c.key, c.job, c.amount, c.access, c.amount, Unprocessed, [])]
    else o[c.id := OrderAfter(o[c.id], c)]
  }

  /** How the adapter registers: under the id derived from the key, or, without one, where fincode says. */
  predicate ByTheKey(c: Call) {
    c.Register? ==> if c.key == "" then c.id.Assigned? else c.id == Derived(c.key)
  }

  /** Calls of all clients, each through this adapter. */
  ghost predicate Follows(o: Orders, cs: seq<Call>, o': Orders)
    decreases |cs|
  {
    if cs == [] then o == o'
    else Accepts(o, cs[0]) && ByTheKey(cs[0]) && Follows(After(o, cs[0]), cs[1..], o')
  }

  lemma {:induction false} FollowsConcat(o: Orders, a: seq<Call>, o': Orders, b: seq<Call>, o'': Orders)
    requires Follows(o, a, o') && Follows(o', b, o'')
    ensures Follows(o, a + b, o'')
    decreases |a|
  {
    if a == [] {
      assert [] + b == b;
    } else {
      FollowsConcat(After(o, a[0]), a[1..], o', b, o'');
      assert (a + b)[1..] == a[1..] + b;
    }
  }

  // ---- what holds of every order ----

  predicate OrderOk(id: OrderId, o: Order) {
    && o.amount > 0 && o.total > 0 && o.access != ""
    && (if o.key == "" then id.Assigned? else id == Derived(o.key))
    && |o.charged| <= 1 && (o.charged != [] ==> o.charged[0] > 0)
    && (o.status == Unprocessed || o.status == Checked || o.status == Authenticated ==>
          o.charged == [] && o.total == o.amount)
    && (o.status == Authorized ==> o.job == AuthJob && o.charged == [])
    && (o.status == Captured ==> |o.charged| == 1)
    && (o.job == CaptureJob && o.charged != [] ==> o.charged == [o.amount])
  }

  ghost predicate Inv(o: Orders) {
    forall id | id in o :: OrderOk(id, o[id])
  }

  /** What no call changes: whose order it is, what it was registered for, and what it has charged. */
  predicate Continues(o: Order, o': Order) {
    && o'.key == o.key && o'.job == o.job && o'.amount == o.amount && o'.access == o.access
    && o.charged <= o'.charged
    && (o.charged != [] ==> o'.charged == o.charged)
  }

  ghost predicate AllContinue(o: Orders, o': Orders) {
    forall id | id in o :: id in o' && Continues(o[id], o'[id])
  }

  lemma AllContinueSelf(o: Orders)
    ensures AllContinue(o, o)
  {
  }

  lemma ContinuesOn(a: Orders, b: Orders, c: Orders)
    requires AllContinue(a, b) && AllContinue(b, c)
    ensures AllContinue(a, c)
  {
    forall id | id in a ensures id in c && Continues(a[id], c[id]) {
      assert Continues(a[id], b[id]) && Continues(b[id], c[id]);
    }
  }

  lemma OrderStaysOk(id: OrderId, o: Orders, c: Call)
    requires id in o && OrderOk(id, o[id]) && Accepts(o, c) && !c.Register? && c.id == id
    ensures OrderOk(id, OrderAfter(o[id], c)) && Continues(o[id], OrderAfter(o[id], c))
  {
  }

  lemma OrderKept(id: OrderId, o: Orders, c: Call)
    requires Inv(o) && Accepts(o, c) && ByTheKey(c)
    ensures id in After(o, c) ==> OrderOk(id, After(o, c)[id])
    ensures id in o ==> id in After(o, c) && Continues(o[id], After(o, c)[id])
  {
    if id in o && id == c.id {
      OrderStaysOk(id, o, c);
    }
  }

  lemma CallKeepsInv(o: Orders, c: Call)
    requires Inv(o) && Accepts(o, c) && ByTheKey(c)
    ensures Inv(After(o, c)) && AllContinue(o, After(o, c))
  {
    hide OrderAfter, OrderOk, Continues, After;
    forall id | id in After(o, c) ensures OrderOk(id, After(o, c)[id]) {
      OrderKept(id, o, c);
    }
    forall id | id in o ensures id in After(o, c) && Continues(o[id], After(o, c)[id]) {
      OrderKept(id, o, c);
    }
  }

  lemma {:induction false} RunKeepsInv(o: Orders, cs: seq<Call>, o': Orders)
    requires Inv(o) && Follows(o, cs, o')
    ensures Inv(o') && AllContinue(o, o')
    decreases |cs|
  {
    if cs != [] {
      CallKeepsInv(o, cs[0]);
      RunKeepsInv(After(o, cs[0]), cs[1..], o');
      ContinuesOn(o, After(o, cs[0]), o');
    }
  }

  /** Every registration with this key asks for this charge. */
  ghost predicate OneRequest(cs: seq<Call>, key: string, amount: int) {
    forall i | 0 <= i < |cs| && cs[i].Register? && cs[i].key == key :: cs[i].job == CaptureJob && cs[i].amount == amount
  }

  lemma {:induction false} RegisteredAsAsked(o: Orders, cs: seq<Call>, o': Orders, key: string, amount: int)
    requires Inv(o) && Follows(o, cs, o') && OneRequest(cs, key, amount)
    requires forall id | id in o && o[id].key == key :: o[id].job == CaptureJob && o[id].amount == amount
    ensures forall id | id in o' && o'[id].key == key :: o'[id].job == CaptureJob && o'[id].amount == amount
    decreases |cs|
  {
    if cs != [] {
      CallKeepsInv(o, cs[0]);
      forall i | 0 <= i < |cs| - 1 && cs[1..][i].Register? && cs[1..][i].key == key
        ensures cs[1..][i].job == CaptureJob && cs[1..][i].amount == amount
      {
        assert cs[1..][i] == cs[i + 1];
      }
      RegisteredAsAsked(After(o, cs[0]), cs[1..], o', key, amount);
    }
  }

  /** However often a charge with a key is retried, completed, voided or refunded, and whichever replies
      are lost: over all orders, the card is charged for that key at most once, and for the amount asked. */
  lemma ChargedAtMostOncePerKey(cs: seq<Call>, o: Orders, key: string, amount: int)
    requires key != "" && Follows(map[], cs, o) && OneRequest(cs, key, amount)
    ensures forall id | id in o && o[id].key == key ::
              id == Derived(key) && (o[id].charged == [] || o[id].charged == [amount])
  {
    RunKeepsInv(map[], cs, o);
    RegisteredAsAsked(map[], cs, o, key, amount);
    forall id | id in o && o[id].key == key
      ensures id == Derived(key) && (o[id].charged == [] || o[id].charged == [amount])
    {
      assert OrderOk(id, o[id]);
    }
  }

  /** A charge taken is never taken back or repeated by any later call. */
  lemma ChargeIsPermanent(cs: seq<Call>, o: Orders, cs': seq<Call>, o': Orders, id: OrderId)
    requires Follows(map[], cs, o) && Follows(o, cs', o') && id in o && o[id].charged != []
    ensures id in o' && o'[id].charged == o[id].charged && |o'[id].charged| == 1
  {
    RunKeepsInv(map[], cs, o);
    RunKeepsInv(o, cs', o');
    assert OrderOk(id, o[id]) && Continues(o[id], o'[id]);
  }

  // ---- replies ----

  /** A payment in a reply. Some replies leave total_amount or job_code out. */
  datatype View = View(
    id: OrderId, access: string, reportsJob: bool, job: JobCode, status: Status, amount: int, totalAmount: int)

  /** currentTotal */
  function CurrentTotal(v: View): int { if v.totalAmount != 0 then v.totalAmount else v.amount }

  /** v truly describes the order; what a canceled order shows as its amount is left open. */
  predicate Shows(o: Order, v: View) {
    && v.access == o.access && v.status == o.status
    && (v.reportsJob ==> v.job == o.job)
    && (o.status != Canceled ==> v.totalAmount == o.total || (v.totalAmount == 0 && v.amount == o.total))
  }

  lemma ShownTotal(id: OrderId, o: Order, v: View)
    requires OrderOk(id, o) && Shows(o, v) && o.status != Canceled
    ensures CurrentTotal(v) == o.total
  {
  }

  /** HTTPError: fincode answered with a status code. Lost: no answer came. */
  datatype Reply = Answer(view: View) | HTTPError(code: int) | Lost

  /** wrapGatewayError: whether the error says that a retry may help. */
  predicate Retryable(r: Reply) {
    match r
    case Answer(_) => false
    case HTTPError(code) => code == 429 || code == 408 || code == 504 || code >= 500
    case Lost => true
  }

  /** A timeout, a refusal for haste and every server error may pass; no other answer does. */
  lemma TransientCodes(r: Reply)
    ensures Retryable(r) <==> r.Lost? || (r.HTTPError? && (r.code in [408, 429] || 500 <= r.code))
  {
  }
}
