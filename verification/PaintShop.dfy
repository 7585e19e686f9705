/** The paint shop's buffers (asst1/paintshop.c): any number of customers and staff, n slots in each
buffer.

Each step is one semaphore operation or one look at a slot; filling a can is one step here, and module
PaintTints is about what happens inside it.  Semaphores are counters (module Semaphore is about why),
a mutex is the thread that has it.  The last eight fields of the state record what happened and are
never tested.

Cans are numbers; a customer orders only cans that are not on order already. */
module PaintShop {
  import opened Common

  datatype Who = Customer(id: nat) | Staff(id: nat)

  datatype Pc =
    // order_paint
    | Outside | WantOrderSlot | WantOrderLock | Ordering | Ordered | Announcing
    | WantReady | WantLookLock | Looking | Looked | Repost | Collected
    // go_home
    | Gone
    // take_order
    | Top | WantOrder | WantTakeLock | Taking | Took | TookRepost | TookFree
    // fill_order
    | Filling
    // serve_order
    | WantServeSlot | WantServeLock | Serving | Served | Ready
    // take_order returned NULL
    | Exited

  /** A thread, the can it is about, its loop index and is_found. */
  datatype Thread = Thread(pc: Pc, can: nat, i: nat, found: bool)

  /** Where a can on order is. */
  datatype Place = With(who: Who) | OrderSlot(i: nat) | DeliverySlot(i: nat)

  datatype Event = OrderedBy(who: Who) | TakenBy(who: Who) | FilledBy(who: Who) | ServedBy(who: Who) | CollectedBy(who: Who)

  datatype State = State(
    threads: map<Who, Thread>, orders: seq<Option<nat>>, deliveries: seq<Option<nat>>,
    orderEmpty: int, orderFull: int, readyCans: int, deliveryEmpty: int,
    orderMutex: Option<Who>, deliveryMutex: Option<Who>, remaining: int,
    place: map<nat, Place>, history: map<nat, seq<Event>>, orderHeld: set<Who>, deliveryHeld: set<Who>,
    announced: int, posted: int, takers: set<Who>, lookers: set<Who>)

  // ---------------------------------------------------------------- the machine

  /** Order(can) calls order_paint, GoHome calls go_home, Next goes on inside a call. */
  datatype Step = Order(can: nat) | GoHome | Next

  /** A P that would block is not enabled. */
  predicate Enabled(s: State, w: Who, step: Step) {
    w in s.threads &&
    match step
    case Order(can) => s.threads[w].pc == Outside && can !in s.place
    case GoHome => s.threads[w].pc == Outside
    case Next =>
      match s.threads[w].pc
      case Outside => false
      case Gone => false
      case Exited => false
      case WantOrderSlot => s.orderEmpty > 0
      case WantOrderLock => s.orderMutex == None
      case WantReady => s.readyCans > 0
      case WantLookLock => s.deliveryMutex == None
      case WantOrder => s.orderFull > 0
      case WantTakeLock => s.orderMutex == None
      case WantServeSlot => s.deliveryEmpty > 0
      case WantServeLock => s.deliveryMutex == None
      case _ => true
  }

  function To(s: State, w: Who, t: Thread): State {
    s.(threads := s.threads[w := t])
  }

  /** A can changes place, with an event. */
  function Note(s: State, can: nat, e: Event, p: Place): State {
    s.(history := s.history[can := (if can in s.history then s.history[can] else []) + [e]], place := s.place[can := p])
  }

  function Do(s: State, w: Who, step: Step): State
    requires Enabled(s, w, step)
  {
    var t := s.threads[w];
    match step
    case Order(can) =>
      To(s.(history := s.history[can := [OrderedBy(w)]], place := s.place[can := With(w)]), w, Thread(WantOrderSlot, can, 0, false))
    case GoHome => To(s.(remaining := s.remaining - 1), w, t.(pc := Gone))
    case Next =>
      if OnOrderPc(t.pc) then OrderPaint(s, w, t)
      else if InTakePc(t.pc) then TakeOrder(s, w, t)
      else if t.pc == Filling then FillOrder(s, w, t)
      else ServeOrder(s, w, t)
  }

  predicate OnOrderPc(pc: Pc) {
    pc == WantOrderSlot || pc == WantOrderLock || pc == Ordering || pc == Ordered || pc == Announcing
    || pc == WantReady || pc == WantLookLock || pc == Looking || pc == Looked || pc == Repost || pc == Collected
  }

  predicate InTakePc(pc: Pc) {
    pc == Top || pc == WantOrder || pc == WantTakeLock || pc == Taking || pc == Took || pc == TookRepost || pc == TookFree
  }

  function OrderPaint(s: State, w: Who, t: Thread): State {
    match t.pc
    case WantOrderSlot => To(s.(orderEmpty := s.orderEmpty - 1, orderHeld := s.orderHeld + {w}), w, t.(pc := WantOrderLock))
    case WantOrderLock => To(s.(orderMutex := Some(w)), w, t.(pc := Ordering, i := 0))
    case Ordering => PlaceOrder(s, w, t)
    case Ordered => To(s.(orderMutex := None), w, t.(pc := Announcing))
    case Announcing => To(s.(orderFull := s.orderFull + 1, announced := s.announced + 1), w, t.(pc := WantReady))
    case WantReady => To(s.(readyCans := s.readyCans - 1, lookers := s.lookers + {w}), w, t.(pc := WantLookLock))
    case WantLookLock => To(s.(deliveryMutex := Some(w)), w, t.(pc := Looking, i := 0))
    case Looking => Look(s, w, t)
    case Looked => To(s.(deliveryMutex := None), w, t.(pc := Repost))
    case Repost =>
      To(s.(readyCans := s.readyCans + 1, lookers := s.lookers - {w}), w, t.(pc := if t.found then Collected else WantReady))
    case Collected =>
      To(s.(deliveryEmpty := s.deliveryEmpty + 1, deliveryHeld := s.deliveryHeld - {w}, place := s.place - {t.can}), w, t.(pc := Outside))
    case _ => s
  }

  function TakeOrder(s: State, w: Who, t: Thread): State {
    match t.pc
    case Top => To(s, w, t.(pc := if s.remaining == 0 then Exited else WantOrder, found := false))
    case WantOrder => To(s.(orderFull := s.orderFull - 1, takers := s.takers + {w}), w, t.(pc := WantTakeLock))
    case WantTakeLock => To(s.(orderMutex := Some(w)), w, t.(pc := Taking, i := 0))
    case Taking => Take(s, w, t)
    case Took => To(s.(orderMutex := None), w, t.(pc := TookRepost))
    case TookRepost =>
      To(s.(orderFull := s.orderFull + 1, takers := s.takers - {w}), w, t.(pc := if t.found then TookFree else Top))
    case TookFree => To(s.(orderEmpty := s.orderEmpty + 1, orderHeld := s.orderHeld - {w}), w, t.(pc := Filling))
    case _ => s
  }

  function FillOrder(s: State, w: Who, t: Thread): State {
    To(Note(s, t.can, FilledBy(w), With(w)), w, t.(pc := WantServeSlot))
  }

  function ServeOrder(s: State, w: Who, t: Thread): State {
    match t.pc
    case WantServeSlot => To(s.(deliveryEmpty := s.deliveryEmpty - 1, deliveryHeld := s.deliveryHeld + {w}), w, t.(pc := WantServeLock))
    case WantServeLock => To(s.(deliveryMutex := Some(w)), w, t.(pc := Serving, i := 0))
    case Serving => Serve(s, w, t)
    case Served => To(s.(deliveryMutex := None), w, t.(pc := Ready))
    case Ready => To(s.(readyCans := s.readyCans + 1, posted := s.posted + 1), w, t.(pc := Top))
    case _ => s
  }

  /** One turn of the loop that looks for a free order slot. */
  function PlaceOrder(s: State, w: Who, t: Thread): State {
    if t.i >= |s.orders| then To(s, w, t.(pc := Ordered))
    else if s.orders[t.i].Some? then To(s, w, t.(i := t.i + 1))
    else To(s.(orders := s.orders[t.i := Some(t.can)], place := s.place[t.can := OrderSlot(t.i)], orderHeld := s.orderHeld - {w}),
            w, t.(pc := Ordered))
  }

  /** One turn of the loop that looks for the customer's own can. */
  function Look(s: State, w: Who, t: Thread): State {
    if t.i >= |s.deliveries| then To(s, w, t.(pc := Looked))
    else if s.deliveries[t.i] != Some(t.can) then To(s, w, t.(i := t.i + 1))
    else To(Note(s.(deliveries := s.deliveries[t.i := None], deliveryHeld := s.deliveryHeld + {w}), t.can, CollectedBy(w), With(w)),
            w, t.(pc := Looked, found := true))
  }

  /** One turn of the loop that looks for an order. */
  function Take(s: State, w: Who, t: Thread): State {
    if t.i >= |s.orders| then To(s, w, t.(pc := Took))
    else if s.orders[t.i] == None then To(s, w, t.(i := t.i + 1))
    else To(Note(s.(orders := s.orders[t.i := None], orderHeld := s.orderHeld + {w}), s.orders[t.i].value, TakenBy(w), With(w)),
            w, t.(pc := Took, can := s.orders[t.i].value, found := true))
  }

  /** One turn of the loop that looks for a free delivery slot. */
  function Serve(s: State, w: Who, t: Thread): State {
    if t.i >= |s.deliveries| then To(s, w, t.(pc := Served))
    else if s.deliveries[t.i].Some? then To(s, w, t.(i := t.i + 1))
    else To(Note(s.(deliveries := s.deliveries[t.i := Some(t.can)], deliveryHeld := s.deliveryHeld - {w}), t.can, ServedBy(w), DeliverySlot(t.i)),
            w, t.(pc := Served))
  }

  // ---------------------------------------------------------------- what is true of each thread

  /** The can a thread has in its hands, by what was done to it last. */
  datatype Hands = Empty | JustOrdered | JustTaken | JustFilled | JustCollected

  /** What a thread has at a point of its program: an unfinished order; the order mutex; the delivery
      mutex; an order slot that it was promised and has not filled, or has emptied and not counted; the
      same for a delivery slot; a count of order_buffer_full or ready_cans to give back; a can. */
  datatype Role = Role(customer: bool, onOrder: bool, orders: bool, deliveries: bool, orderSlot: bool, deliverySlot: bool,
                       seeking: bool, hands: Hands)

  function RoleOf(t: Thread): Role {
    match t.pc
    case Outside =>       Role(true, false, false, false, false, false, false, Empty)
    case WantOrderSlot => Role(true, true, false, false, false, false, false, JustOrdered)
    case WantOrderLock => Role(true, true, false, false, true, false, false, JustOrdered)
    case Ordering =>      Role(true, true, true, false, true, false, false, JustOrdered)
    case Ordered =>       Role(true, true, true, false, false, false, false, Empty)
    case Announcing =>    Role(true, true, false, false, false, false, false, Empty)
    case WantReady =>     Role(true, true, false, false, false, false, false, Empty)
    case WantLookLock =>  Role(true, true, false, false, false, false, true, Empty)
    case Looking =>       Role(true, true, false, true, false, false, true, Empty)
    case Looked =>        Role(true, true, false, true, false, t.found, true, if t.found then JustCollected else Empty)
    case Repost =>        Role(true, true, false, false, false, t.found, true, if t.found then JustCollected else Empty)
    case Collected =>     Role(true, true, false, false, false, true, false, JustCollected)
    case Gone =>          Role(true, false, false, false, false, false, false, Empty)
    case Top =>           Role(false, false, false, false, false, false, false, Empty)
    case WantOrder =>     Role(false, false, false, false, false, false, false, Empty)
    case WantTakeLock =>  Role(false, false, false, false, false, false, true, Empty)
    case Taking =>        Role(false, false, true, false, false, false, true, Empty)
    case Took =>          Role(false, false, true, false, t.found, false, true, if t.found then JustTaken else Empty)
    case TookRepost =>    Role(false, false, false, false, t.found, false, true, if t.found then JustTaken else Empty)
    case TookFree =>      Role(false, false, false, false, true, false, false, JustTaken)
    case Filling =>       Role(false, false, false, false, false, false, false, JustTaken)
    case WantServeSlot => Role(false, false, false, false, false, false, false, JustFilled)
    case WantServeLock => Role(false, false, false, false, false, true, false, JustFilled)
    case Serving =>       Role(false, false, false, true, false, true, false, JustFilled)
    case Served =>        Role(false, false, false, true, false, false, false, Empty)
    case Ready =>         Role(false, false, false, false, false, false, false, Empty)
    case Exited =>        Role(false, false, false, false, false, false, false, Empty)
  }

  predicate HasCan(t: Thread) {
    RoleOf(t).hands != Empty
  }

  /** After the order was announced. */
  predicate Announced(pc: Pc) {
    match pc
    case WantReady => true
    case WantLookLock => true
    case Looking => true
    case Looked => true
    case Repost => true
    case Collected => true
    case _ => false
  }

  /** Has put a can into the delivery buffer and not posted ready_cans. */
  predicate Serves(t: Thread) {
    t.pc == Served || t.pc == Ready
  }

  /** Before is_found can be set. */
  predicate Searching(pc: Pc) {
    match pc
    case WantReady => true
    case WantLookLock => true
    case Looking => true
    case WantOrder => true
    case WantTakeLock => true
    case Taking => true
    case Ordered => true
    case Announcing => true
    case WantOrderSlot => true
    case WantOrderLock => true
    case Ordering => true
    case _ => false
  }

  /** What has happened to a can in the hands of w. */
  ghost predicate HistoryWith(h: seq<Event>, w: Who, hands: Hands) {
    match hands
    case Empty => true
    case JustOrdered => h == [OrderedBy(w)]
    case JustTaken => |h| == 2 && h[0].OrderedBy? && h[1] == TakenBy(w)
    case JustFilled => |h| == 3 && h[0].OrderedBy? && h[1] == TakenBy(w) && h[2] == FilledBy(w)
    case JustCollected => |h| == 5 && IsServed(h[..4]) && h[0] == OrderedBy(w) && h[4] == CollectedBy(w)
  }

  /** Ordered, and then taken, filled and served by one and the same member of staff. */
  ghost predicate IsServed(h: seq<Event>) {
    && |h| == 4 && h[0].OrderedBy? && h[1].TakenBy? && h[1].who.Staff?
    && h[2] == FilledBy(h[1].who) && h[3] == ServedBy(h[1].who)
  }

  /** A thread holds what its role says, and nothing else. */
  ghost predicate HasRole(w: Who, r: Role, orders: Option<Who>, deliveries: Option<Who>, orderHeld: set<Who>,
                          deliveryHeld: set<Who>, takers: set<Who>, lookers: set<Who>) {
    && r.customer == w.Customer?
    && (orders == Some(w) <==> r.orders) && (deliveries == Some(w) <==> r.deliveries)
    && (w in orderHeld <==> r.orderSlot) && (w in deliveryHeld <==> r.deliverySlot)
    && (w in takers <==> r.seeking && w.Staff?) && (w in lookers <==> r.seeking && w.Customer?)
  }

  ghost predicate ThreadOk(s: State, w: Who) {
    w in s.threads ==>
      var t := s.threads[w];
      var r := RoleOf(t);
      && true == HasRole(w, r, s.orderMutex, s.deliveryMutex, s.orderHeld, s.deliveryHeld, s.takers, s.lookers)
      && (Announced(t.pc) ==> s.announced > 0)
      && (t.pc == Ordering ==> t.i <= |s.orders| && forall j :: 0 <= j < t.i ==> s.orders[j].Some?)
      && (t.pc == Serving ==> t.i <= |s.deliveries| && forall j :: 0 <= j < t.i ==> s.deliveries[j].Some?)
      && (t.found ==> !Searching(t.pc))
      && (r.onOrder ==> t.can in s.place && t.can in s.history && s.history[t.can] != [] && s.history[t.can][0] == OrderedBy(w))
      && (HasCan(t) ==> t.can in s.place && s.place[t.can] == With(w) && t.can in s.history && HistoryWith(s.history[t.can], w, r.hands))
  }

  // ---------------------------------------------------------------- what is true of each can

  /** A can on order is in the one place that `place` says, and belongs to a customer who waits for it. */
  ghost predicate CanOk(s: State, x: nat) {
    x in s.place ==>
      && x in s.history && s.history[x] != [] && s.history[x][0].OrderedBy?
      && (var c := s.history[x][0].who; c in s.threads && RoleOf(s.threads[c]).onOrder && s.threads[c].can == x)
      && match s.place[x]
         case With(w) => w in s.threads && HasCan(s.threads[w]) && s.threads[w].can == x
         case OrderSlot(i) => i < |s.orders| && s.orders[i] == Some(x) && |s.history[x]| == 1
         case DeliverySlot(i) =>
           && i < |s.deliveries| && s.deliveries[i] == Some(x) && IsServed(s.history[x])
           && (s.posted > 0 || (s.history[x][3].who in s.threads && Serves(s.threads[s.history[x][3].who])))
  }

  ghost predicate SlotOk(s: State, i: nat) {
    && (i < |s.orders| && s.orders[i].Some? ==> s.orders[i].value in s.place && s.place[s.orders[i].value] == OrderSlot(i))
    && (i < |s.deliveries| && s.deliveries[i].Some? ==>
          s.deliveries[i].value in s.place && s.place[s.deliveries[i].value] == DeliverySlot(i))
  }

  function Full(buf: seq<Option<nat>>): nat {
    if buf == [] then 0 else Full(buf[..|buf| - 1]) + if buf[|buf| - 1].Some? then 1 else 0
  }

  /** Every slot of a buffer is filled, promised to a thread, or counted by its semaphore; and every order
      announced and every can posted is counted, or lent to a thread that looks. */
  ghost predicate SlotsAdd(s: State) {
    && s.orderEmpty >= 0 && s.orderEmpty + |s.orderHeld| + Full(s.orders) == |s.orders|
    && s.deliveryEmpty >= 0 && s.deliveryEmpty + |s.deliveryHeld| + Full(s.deliveries) == |s.deliveries|
    && s.orderFull >= 0 && s.orderFull + |s.takers| == s.announced
    && s.readyCans >= 0 && s.readyCans + |s.lookers| == s.posted
  }

  ghost function Present(s: State): set<Who> {
    set w | w in s.threads && w.Customer? && s.threads[w].pc != Gone
  }

  ghost predicate Known(s: State) {
    && (s.orderMutex.Some? ==> s.orderMutex.value in s.threads) && (s.deliveryMutex.Some? ==> s.deliveryMutex.value in s.threads)
    && s.orderHeld <= s.threads.Keys && s.deliveryHeld <= s.threads.Keys
    && s.takers <= s.threads.Keys && s.lookers <= s.threads.Keys
    && s.remaining == |Present(s)|
  }

  ghost predicate Inv(s: State) {
    (forall w :: ThreadOk(s, w)) && (forall x :: CanOk(s, x)) && (forall i :: SlotOk(s, i)) && SlotsAdd(s) && Known(s)
  }

  // ---------------------------------------------------------------- counting slots

  lemma {:induction false} FullUpdate(buf: seq<Option<nat>>, i: nat, v: Option<nat>)
    requires i < |buf|
    ensures Full(buf[i := v]) == Full(buf) - (if buf[i].Some? then 1 else 0) + (if v.Some? then 1 else 0)
  {
    var m := |buf| - 1;
    if i < m {
      FullUpdate(buf[..m], i, v);
      assert buf[i := v][..m] == buf[..m][i := v];
    } else {
      assert buf[i := v][..m] == buf[..m];
    }
  }

  /** With a slot to spare the search finds one. */
  lemma {:induction false} FullAll(buf: seq<Option<nat>>)
    ensures Full(buf) <= |buf|
    ensures (forall j :: 0 <= j < |buf| ==> buf[j].Some?) ==> Full(buf) == |buf|
  {
    if buf != [] {
      FullAll(buf[..|buf| - 1]);
    }
  }

  // ---------------------------------------------------------------- steps that concern one thread and one can

  ghost predicate OneLock(w: Who, m: Option<Who>, m': Option<Who>) {
    m' == m || ((m == None || m == Some(w)) && (m' == None || m' == Some(w)))
  }

  ghost predicate SameBut(a: set<Who>, a': set<Who>, w: Who) {
    forall v :: v != w ==> (v in a' <==> v in a)
  }

  /** Counts of calls only grow, and a server does not leave before it has posted. */
  ghost predicate OneSeeker(s: State, s': State, w: Who)
    requires w in s.threads && w in s'.threads
  {
    && SameBut(s.takers, s'.takers, w) && SameBut(s.lookers, s'.lookers, w)
    && s'.announced >= s.announced && s'.posted >= s.posted
    && (Serves(s.threads[w]) ==> Serves(s'.threads[w]) || s'.posted > 0)
  }

  /** Only can x comes or goes. */
  ghost predicate OneSlot(buf: seq<Option<nat>>, buf': seq<Option<nat>>, x: nat) {
    && |buf'| == |buf|
    && forall i :: 0 <= i < |buf| ==>
         buf'[i] == buf[i] || ((buf[i] == None || buf[i] == Some(x)) && (buf'[i] == None || buf'[i] == Some(x)))
  }

  ghost predicate OneCan(s: State, s': State, x: nat) {
    && (forall y :: y != x ==> (y in s'.place <==> y in s.place) && (y in s'.history <==> y in s.history))
    && (forall y :: y != x && y in s.place ==> s'.place[y] == s.place[y])
    && (forall y :: y != x && y in s.history ==> s'.history[y] == s.history[y])
  }

  /** Nobody but w is concerned with can x, except its owner, who goes on waiting. */
  ghost predicate OwnCan(s: State, s': State, w: Who, x: nat) {
    x in s.place ==>
      && (s.place[x].With? ==> s.place[x].who == w)
      && x in s.history && s.history[x] != []
      && (s.history[x][0] == OrderedBy(w) || (x in s'.place && x in s'.history && s'.history[x] != [] && s'.history[x][0] == s.history[x][0]))
  }

  ghost predicate Framed(s: State, s': State, w: Who, x: nat) {
    && w in s.threads && w in s'.threads && s'.threads == s.threads[w := s'.threads[w]]
    && OneLock(w, s.orderMutex, s'.orderMutex) && OneLock(w, s.deliveryMutex, s'.deliveryMutex)
    && SameBut(s.orderHeld, s'.orderHeld, w) && SameBut(s.deliveryHeld, s'.deliveryHeld, w) && OneSeeker(s, s', w)
    && OneSlot(s.orders, s'.orders, x) && OneSlot(s.deliveries, s'.deliveries, x)
    && (s'.orders == s.orders || s.orderMutex == Some(w)) && (s'.deliveries == s.deliveries || s.deliveryMutex == Some(w))
    && OneCan(s, s', x) && OwnCan(s, s', w, x)
    && Carries(s.threads[w], s'.threads[w], x)
  }

  /** A thread that has or awaits another can than x goes on doing so. */
  ghost predicate Carries(t: Thread, t': Thread, x: nat) {
    && (t.can != x && RoleOf(t).onOrder ==> RoleOf(t').onOrder && t'.can == t.can)
    && (t.can != x && HasCan(t) ==> HasCan(t') && t'.can == t.can)
  }

  lemma OtherThread(s: State, s': State, w: Who, x: nat, v: Who)
    requires Framed(s, s', w, x) && v != w && ThreadOk(s, v) && CanOk(s, x)
    ensures ThreadOk(s', v)
  {
  }

  lemma OtherCan(s: State, s': State, w: Who, x: nat, y: nat)
    requires Framed(s, s', w, x) && y != x && CanOk(s, y)
    ensures CanOk(s', y)
  {
  }

  ghost predicate SlotsOf(s: State, x: nat) {
    forall i :: 0 <= i < |s.orders| && s.orders[i] == Some(x) ==> x in s.place && s.place[x] == OrderSlot(i)
  }

  ghost predicate DeliveriesOf(s: State, x: nat) {
    forall i :: 0 <= i < |s.deliveries| && s.deliveries[i] == Some(x) ==> x in s.place && s.place[x] == DeliverySlot(i)
  }

  lemma SlotsAre(s: State, x: nat)
    requires Inv(s)
    ensures SlotsOf(s, x) && DeliveriesOf(s, x)
  {
    forall i | 0 <= i < |s.orders| && s.orders[i] == Some(x) ensures x in s.place && s.place[x] == OrderSlot(i) {
      assert SlotOk(s, i);
    }
    forall i | 0 <= i < |s.deliveries| && s.deliveries[i] == Some(x) ensures x in s.place && s.place[x] == DeliverySlot(i) {
      assert SlotOk(s, i);
    }
  }

  lemma OtherSlot(s: State, s': State, w: Who, x: nat, i: nat)
    requires Framed(s, s', w, x) && SlotOk(s, i) && SlotsOf(s', x) && DeliveriesOf(s', x)
    ensures SlotOk(s', i)
  {
  }

  lemma FrameKeeps(s: State, s': State, w: Who, x: nat)
    requires Inv(s) && Framed(s, s', w, x)
    requires ThreadOk(s', w) && CanOk(s', x) && SlotsOf(s', x) && DeliveriesOf(s', x) && SlotsAdd(s')
    requires s'.remaining == s.remaining && (s.threads[w].pc == Gone <==> s'.threads[w].pc == Gone)
    ensures Inv(s')
  {
    SamePresent(s, s', w);
    assert CanOk(s, x);
    forall v ensures ThreadOk(s', v) {
      assert ThreadOk(s, v);
      if v != w {
        OtherThread(s, s', w, x, v);
      }
    }
    forall y ensures CanOk(s', y) {
      assert CanOk(s, y);
      if y != x {
        OtherCan(s, s', w, x, y);
      }
    }
    forall i ensures SlotOk(s', i) {
      assert SlotOk(s, i);
      OtherSlot(s, s', w, x, i);
    }
  }

  /** The same people are there. */
  lemma SamePresent(s: State, s': State, w: Who)
    requires w in s.threads && w in s'.threads && s'.threads == s.threads[w := s'.threads[w]]
    requires s.threads[w].pc == Gone <==> s'.threads[w].pc == Gone
    ensures Present(s') == Present(s) && s'.threads.Keys == s.threads.Keys
  {
  }

  /** A step that leaves all cans where they are. */
  ghost predicate Plain(s: State, s': State, w: Who) {
    && s'.orders == s.orders && s'.deliveries == s.deliveries && s'.place == s.place && s'.history == s.history
    && w in s.threads && w in s'.threads && s'.threads == s.threads[w := s'.threads[w]]
    && OneLock(w, s.orderMutex, s'.orderMutex) && OneLock(w, s.deliveryMutex, s'.deliveryMutex)
    && SameBut(s.orderHeld, s'.orderHeld, w) && SameBut(s.deliveryHeld, s'.deliveryHeld, w) && OneSeeker(s, s', w)
    && SameRole(s.threads[w], s'.threads[w])
  }

  ghost predicate SameRole(t: Thread, t': Thread) {
    && t'.can == t.can
    && RoleOf(t').onOrder == RoleOf(t).onOrder && RoleOf(t').hands == RoleOf(t).hands
  }

  lemma PlainKeeps(s: State, s': State, w: Who)
    requires Inv(s) && Plain(s, s', w) && ThreadOk(s', w) && SlotsAdd(s')
    requires s'.remaining == s.remaining && (s.threads[w].pc == Gone <==> s'.threads[w].pc == Gone)
    ensures Inv(s')
  {
    SamePresent(s, s', w);
    PlainRest(s, s', w);
  }

  lemma PlainRest(s: State, s': State, w: Who)
    requires Inv(s) && Plain(s, s', w) && ThreadOk(s', w) && SlotsAdd(s') && s'.remaining == |Present(s')|
    ensures Inv(s')
  {
    assert ThreadOk(s, w);
    PlainCans(s, s', w);
    forall v ensures ThreadOk(s', v) {
      assert ThreadOk(s, v);
      if v != w {
        PlainOther(s, s', w, v);
      }
    }
    forall i ensures SlotOk(s', i) {
      assert SlotOk(s, i);
    }
  }

  lemma PlainCans(s: State, s': State, w: Who)
    requires Inv(s) && Plain(s, s', w)
    ensures forall y :: CanOk(s', y)
  {
    forall y ensures CanOk(s', y) {
      assert CanOk(s, y);
    }
  }

  lemma PlainOther(s: State, s': State, w: Who, v: Who)
    requires Plain(s, s', w) && v != w && ThreadOk(s, v)
    ensures ThreadOk(s', v)
  {
    if v in s.threads {
      assert s'.threads[v] == s.threads[v];
      OtherRole(s, s', w, v, RoleOf(s.threads[v]));
    }
  }

  lemma OtherRole(s: State, s': State, w: Who, v: Who, r: Role)
    requires OneLock(w, s.orderMutex, s'.orderMutex) && OneLock(w, s.deliveryMutex, s'.deliveryMutex) && v != w
    requires SameBut(s.orderHeld, s'.orderHeld, w) && SameBut(s.deliveryHeld, s'.deliveryHeld, w)
    requires SameBut(s.takers, s'.takers, w) && SameBut(s.lookers, s'.lookers, w)
    requires HasRole(v, r, s.orderMutex, s.deliveryMutex, s.orderHeld, s.deliveryHeld, s.takers, s.lookers)
    ensures true == HasRole(v, r, s'.orderMutex, s'.deliveryMutex, s'.orderHeld, s'.deliveryHeld, s'.takers, s'.lookers)
  {
  }

  // ---------------------------------------------------------------- every step, in turn

  /** A plain step that keeps what is true of its thread and of the counts. */
  ghost predicate PlainStep(s: State, s': State, w: Who) {
    Plain(s, s', w) && ThreadOk(s', w) && SlotsAdd(s')
  }

  lemma OrderSlotPlain(s: State, w: Who)
    requires ThreadOk(s, w) && SlotsAdd(s) && Enabled(s, w, Next)
    requires (s.threads[w].pc == WantOrderSlot || s.threads[w].pc == WantOrderLock)
    ensures PlainStep(s, OrderPaint(s, w, s.threads[w]), w)
  {
  }

  lemma AnnouncePlain(s: State, w: Who)
    requires ThreadOk(s, w) && SlotsAdd(s) && Enabled(s, w, Next)
    requires (s.threads[w].pc == Ordered || s.threads[w].pc == Announcing)
    ensures PlainStep(s, OrderPaint(s, w, s.threads[w]), w)
  {
  }

  lemma ReadyPlain(s: State, w: Who)
    requires ThreadOk(s, w) && SlotsAdd(s) && Enabled(s, w, Next)
    requires (s.threads[w].pc == WantReady || s.threads[w].pc == WantLookLock)
    ensures PlainStep(s, OrderPaint(s, w, s.threads[w]), w)
  {
  }

  lemma LookedPlain(s: State, w: Who)
    requires ThreadOk(s, w) && SlotsAdd(s) && Enabled(s, w, Next) && s.threads[w].pc == Looked
    ensures PlainStep(s, OrderPaint(s, w, s.threads[w]), w)
  {
  }

  lemma RepostPlain(s: State, w: Who)
    requires ThreadOk(s, w) && SlotsAdd(s) && Enabled(s, w, Next) && s.threads[w].pc == Repost
    ensures PlainStep(s, OrderPaint(s, w, s.threads[w]), w)
  {
  }

  lemma TopPlain(s: State, w: Who)
    requires ThreadOk(s, w) && SlotsAdd(s) && Enabled(s, w, Next) && s.threads[w].pc == Top
    ensures PlainStep(s, TakeOrder(s, w, s.threads[w]), w)
  {
  }

  lemma WantOrderPlain(s: State, w: Who)
    requires ThreadOk(s, w) && SlotsAdd(s) && Enabled(s, w, Next) && s.threads[w].pc == WantOrder
    ensures PlainStep(s, TakeOrder(s, w, s.threads[w]), w)
  {
  }

  lemma TakeLockPlain(s: State, w: Who)
    requires ThreadOk(s, w) && SlotsAdd(s) && Enabled(s, w, Next) && s.threads[w].pc == WantTakeLock
    ensures PlainStep(s, TakeOrder(s, w, s.threads[w]), w)
  {
  }

  lemma TookPlain(s: State, w: Who)
    requires ThreadOk(s, w) && SlotsAdd(s) && Enabled(s, w, Next) && s.threads[w].pc == Took
    ensures PlainStep(s, TakeOrder(s, w, s.threads[w]), w)
  {
  }

  lemma TookRepostPlain(s: State, w: Who)
    requires ThreadOk(s, w) && SlotsAdd(s) && Enabled(s, w, Next) && s.threads[w].pc == TookRepost
    ensures PlainStep(s, TakeOrder(s, w, s.threads[w]), w)
  {
  }

  lemma TookFreePlain(s: State, w: Who)
    requires ThreadOk(s, w) && SlotsAdd(s) && Enabled(s, w, Next) && s.threads[w].pc == TookFree
    ensures PlainStep(s, TakeOrder(s, w, s.threads[w]), w)
  {
  }

  lemma ServeSlotPlain(s: State, w: Who)
    requires ThreadOk(s, w) && SlotsAdd(s) && Enabled(s, w, Next) && s.threads[w].pc == WantServeSlot
    ensures PlainStep(s, ServeOrder(s, w, s.threads[w]), w)
  {
  }

  lemma ServeLockPlain(s: State, w: Who)
    requires ThreadOk(s, w) && SlotsAdd(s) && Enabled(s, w, Next) && s.threads[w].pc == WantServeLock
    ensures PlainStep(s, ServeOrder(s, w, s.threads[w]), w)
  {
  }

  lemma ServedPlain(s: State, w: Who)
    requires ThreadOk(s, w) && SlotsAdd(s) && Enabled(s, w, Next) && s.threads[w].pc == Served
    ensures PlainStep(s, ServeOrder(s, w, s.threads[w]), w)
  {
  }

  lemma PostPlain(s: State, w: Who)
    requires ThreadOk(s, w) && SlotsAdd(s) && Enabled(s, w, Next) && s.threads[w].pc == Ready
    ensures PlainStep(s, ServeOrder(s, w, s.threads[w]), w)
  {
  }

  /** A customer with a permit and the order mutex always finds a free slot. */
  lemma FindsOrderSlot(s: State, w: Who)
    requires Inv(s) && w in s.threads && s.threads[w].pc == Ordering
    ensures s.threads[w].i < |s.orders| && exists j :: s.threads[w].i <= j < |s.orders| && s.orders[j] == None
  {
    assert ThreadOk(s, w);
    assert w in s.orderHeld;
    FullAll(s.orders);
    assert exists j :: 0 <= j < |s.orders| && !s.orders[j].Some?;
  }

  lemma FindsDeliverySlot(s: State, w: Who)
    requires Inv(s) && w in s.threads && s.threads[w].pc == Serving
    ensures s.threads[w].i < |s.deliveries| && exists j :: s.threads[w].i <= j < |s.deliveries| && s.deliveries[j] == None
  {
    assert ThreadOk(s, w);
    assert w in s.deliveryHeld;
    FullAll(s.deliveries);
    assert exists j :: 0 <= j < |s.deliveries| && !s.deliveries[j].Some?;
  }

  lemma StoreFramed(s: State, w: Who)
    requires w in s.threads && s.threads[w].pc == Ordering && s.threads[w].i < |s.orders|
    requires s.orders[s.threads[w].i] == None
    requires ThreadOk(s, w) && CanOk(s, s.threads[w].can) && SlotOk(s, s.threads[w].i)
    ensures Framed(s, PlaceOrder(s, w, s.threads[w]), w, s.threads[w].can)
  {
  }

  lemma StoreOwn(s: State, w: Who)
    requires w in s.threads && s.threads[w].pc == Ordering && s.threads[w].i < |s.orders|
    requires s.orders[s.threads[w].i] == None
    requires ThreadOk(s, w) && CanOk(s, s.threads[w].can) && SlotOk(s, s.threads[w].i) && SlotsOf(s, s.threads[w].can)
    requires DeliveriesOf(s, s.threads[w].can)
    ensures ThreadOk(PlaceOrder(s, w, s.threads[w]), w) && CanOk(PlaceOrder(s, w, s.threads[w]), s.threads[w].can)
    ensures SlotsOf(PlaceOrder(s, w, s.threads[w]), s.threads[w].can)
    ensures DeliveriesOf(PlaceOrder(s, w, s.threads[w]), s.threads[w].can)
  {
  }

  lemma StoreAdds(s: State, w: Who)
    requires w in s.threads && s.threads[w].pc == Ordering && s.threads[w].i < |s.orders|
    requires s.orders[s.threads[w].i] == None
    requires ThreadOk(s, w) && SlotsAdd(s)
    ensures SlotsAdd(PlaceOrder(s, w, s.threads[w]))
  {
    FullUpdate(s.orders, s.threads[w].i, Some(s.threads[w].can));
  }

  lemma StoreKeeps(s: State, w: Who)
    requires w in s.threads && s.threads[w].pc == Ordering && s.threads[w].i < |s.orders|
    requires s.orders[s.threads[w].i] == None
    requires Inv(s)
    ensures Inv(PlaceOrder(s, w, s.threads[w]))
  {
    assert ThreadOk(s, w) && CanOk(s, s.threads[w].can) && SlotOk(s, s.threads[w].i);
    SlotsAre(s, s.threads[w].can);
    StoreFramed(s, w);
    StoreOwn(s, w);
    StoreAdds(s, w);
    FrameKeeps(s, PlaceOrder(s, w, s.threads[w]), w, s.threads[w].can);
  }

  lemma CollectFramed(s: State, w: Who)
    requires w in s.threads && s.threads[w].pc == Looking && s.threads[w].i < |s.deliveries|
    requires s.deliveries[s.threads[w].i] == Some(s.threads[w].can)
    requires ThreadOk(s, w) && CanOk(s, s.threads[w].can) && SlotOk(s, s.threads[w].i)
    ensures Framed(s, Look(s, w, s.threads[w]), w, s.threads[w].can)
  {
  }

  lemma CollectOwn(s: State, w: Who)
    requires w in s.threads && s.threads[w].pc == Looking && s.threads[w].i < |s.deliveries|
    requires s.deliveries[s.threads[w].i] == Some(s.threads[w].can)
    requires ThreadOk(s, w) && CanOk(s, s.threads[w].can) && SlotOk(s, s.threads[w].i) && SlotsOf(s, s.threads[w].can)
    requires DeliveriesOf(s, s.threads[w].can)
    ensures ThreadOk(Look(s, w, s.threads[w]), w) && CanOk(Look(s, w, s.threads[w]), s.threads[w].can)
    ensures SlotsOf(Look(s, w, s.threads[w]), s.threads[w].can)
    ensures DeliveriesOf(Look(s, w, s.threads[w]), s.threads[w].can)
  {
  }

  lemma CollectAdds(s: State, w: Who)
    requires w in s.threads && s.threads[w].pc == Looking && s.threads[w].i < |s.deliveries|
    requires s.deliveries[s.threads[w].i] == Some(s.threads[w].can)
    requires ThreadOk(s, w) && SlotsAdd(s)
    ensures SlotsAdd(Look(s, w, s.threads[w]))
  {
    FullUpdate(s.deliveries, s.threads[w].i, None);
  }

  lemma CollectKeeps(s: State, w: Who)
    requires w in s.threads && s.threads[w].pc == Looking && s.threads[w].i < |s.deliveries|
    requires s.deliveries[s.threads[w].i] == Some(s.threads[w].can)
    requires Inv(s)
    ensures Inv(Look(s, w, s.threads[w]))
  {
    assert ThreadOk(s, w) && CanOk(s, s.threads[w].can) && SlotOk(s, s.threads[w].i);
    SlotsAre(s, s.threads[w].can);
    CollectFramed(s, w);
    CollectOwn(s, w);
    CollectAdds(s, w);
    FrameKeeps(s, Look(s, w, s.threads[w]), w, s.threads[w].can);
  }

  lemma PickFramed(s: State, w: Who)
    requires w in s.threads && s.threads[w].pc == Taking && s.threads[w].i < |s.orders|
    requires s.orders[s.threads[w].i].Some?
    requires ThreadOk(s, w) && CanOk(s, s.orders[s.threads[w].i].value) && SlotOk(s, s.threads[w].i)
    ensures Framed(s, Take(s, w, s.threads[w]), w, s.orders[s.threads[w].i].value)
  {
  }

  lemma PickOwn(s: State, w: Who)
    requires w in s.threads && s.threads[w].pc == Taking && s.threads[w].i < |s.orders|
    requires s.orders[s.threads[w].i].Some?
    requires ThreadOk(s, w) && CanOk(s, s.orders[s.threads[w].i].value) && SlotOk(s, s.threads[w].i)
    requires SlotsOf(s, s.orders[s.threads[w].i].value) && DeliveriesOf(s, s.orders[s.threads[w].i].value)
    ensures ThreadOk(Take(s, w, s.threads[w]), w) && CanOk(Take(s, w, s.threads[w]), s.orders[s.threads[w].i].value)
    ensures SlotsOf(Take(s, w, s.threads[w]), s.orders[s.threads[w].i].value)
    ensures DeliveriesOf(Take(s, w, s.threads[w]), s.orders[s.threads[w].i].value)
  {
  }

  lemma PickAdds(s: State, w: Who)
    requires w in s.threads && s.threads[w].pc == Taking && s.threads[w].i < |s.orders|
    requires s.orders[s.threads[w].i].Some?
    requires ThreadOk(s, w) && SlotsAdd(s)
    ensures SlotsAdd(Take(s, w, s.threads[w]))
  {
    FullUpdate(s.orders, s.threads[w].i, None);
  }

  lemma PickKeeps(s: State, w: Who)
    requires w in s.threads && s.threads[w].pc == Taking && s.threads[w].i < |s.orders|
    requires s.orders[s.threads[w].i].Some?
    requires Inv(s)
    ensures Inv(Take(s, w, s.threads[w]))
  {
    assert ThreadOk(s, w) && CanOk(s, s.orders[s.threads[w].i].value) && SlotOk(s, s.threads[w].i);
    SlotsAre(s, s.orders[s.threads[w].i].value);
    PickFramed(s, w);
    PickOwn(s, w);
    PickAdds(s, w);
    FrameKeeps(s, Take(s, w, s.threads[w]), w, s.orders[s.threads[w].i].value);
  }

  lemma DeliverFramed(s: State, w: Who)
    requires w in s.threads && s.threads[w].pc == Serving && s.threads[w].i < |s.deliveries|
    requires s.deliveries[s.threads[w].i] == None
    requires ThreadOk(s, w) && CanOk(s, s.threads[w].can) && SlotOk(s, s.threads[w].i)
    ensures Framed(s, Serve(s, w, s.threads[w]), w, s.threads[w].can)
  {
  }

  lemma DeliverOwn(s: State, w: Who)
    requires w in s.threads && s.threads[w].pc == Serving && s.threads[w].i < |s.deliveries|
    requires s.deliveries[s.threads[w].i] == None
    requires ThreadOk(s, w) && CanOk(s, s.threads[w].can)
    ensures ThreadOk(Serve(s, w, s.threads[w]), w)
  {
    var t, s' := s.threads[w], Serve(s, w, s.threads[w]);
    assert s'.threads[w] == t.(pc := Served) && s'.history[t.can] == s.history[t.can] + [ServedBy(w)];
  }

  lemma DeliverCan(s: State, w: Who)
    requires w in s.threads && s.threads[w].pc == Serving && s.threads[w].i < |s.deliveries|
    requires s.deliveries[s.threads[w].i] == None
    requires ThreadOk(s, w) && CanOk(s, s.threads[w].can)
    ensures CanOk(Serve(s, w, s.threads[w]), s.threads[w].can)
  {
  }

  lemma DeliverSlots(s: State, w: Who)
    requires w in s.threads && s.threads[w].pc == Serving && s.threads[w].i < |s.deliveries|
    requires s.deliveries[s.threads[w].i] == None
    requires ThreadOk(s, w) && SlotOk(s, s.threads[w].i) && SlotsOf(s, s.threads[w].can)
    requires DeliveriesOf(s, s.threads[w].can)
    ensures SlotsOf(Serve(s, w, s.threads[w]), s.threads[w].can)
    ensures DeliveriesOf(Serve(s, w, s.threads[w]), s.threads[w].can)
  {
  }

  lemma DeliverAdds(s: State, w: Who)
    requires w in s.threads && s.threads[w].pc == Serving && s.threads[w].i < |s.deliveries|
    requires s.deliveries[s.threads[w].i] == None
    requires ThreadOk(s, w) && SlotsAdd(s)
    ensures SlotsAdd(Serve(s, w, s.threads[w]))
  {
    FullUpdate(s.deliveries, s.threads[w].i, Some(s.threads[w].can));
  }

  lemma DeliverKeeps(s: State, w: Who)
    requires w in s.threads && s.threads[w].pc == Serving && s.threads[w].i < |s.deliveries|
    requires s.deliveries[s.threads[w].i] == None
    requires Inv(s)
    ensures Inv(Serve(s, w, s.threads[w]))
  {
    assert ThreadOk(s, w) && CanOk(s, s.threads[w].can) && SlotOk(s, s.threads[w].i);
    SlotsAre(s, s.threads[w].can);
    DeliverFramed(s, w);
    DeliverOwn(s, w);
    DeliverCan(s, w);
    DeliverSlots(s, w);
    DeliverAdds(s, w);
    FrameKeeps(s, Serve(s, w, s.threads[w]), w, s.threads[w].can);
  }

  lemma FillFramed(s: State, w: Who)
    requires w in s.threads && s.threads[w].pc == Filling
    requires ThreadOk(s, w) && CanOk(s, s.threads[w].can) && SlotOk(s, s.threads[w].i)
    ensures Framed(s, FillOrder(s, w, s.threads[w]), w, s.threads[w].can)
  {
  }

  lemma FillOwn(s: State, w: Who)
    requires w in s.threads && s.threads[w].pc == Filling
    requires ThreadOk(s, w) && CanOk(s, s.threads[w].can) && SlotOk(s, s.threads[w].i) && SlotsOf(s, s.threads[w].can)
    requires DeliveriesOf(s, s.threads[w].can)
    ensures ThreadOk(FillOrder(s, w, s.threads[w]), w) && CanOk(FillOrder(s, w, s.threads[w]), s.threads[w].can)
    ensures SlotsOf(FillOrder(s, w, s.threads[w]), s.threads[w].can)
    ensures DeliveriesOf(FillOrder(s, w, s.threads[w]), s.threads[w].can)
  {
  }

  lemma FillAdds(s: State, w: Who)
    requires w in s.threads && s.threads[w].pc == Filling
    requires ThreadOk(s, w) && SlotsAdd(s)
    ensures SlotsAdd(FillOrder(s, w, s.threads[w]))
  {
  }

  lemma FillKeeps(s: State, w: Who)
    requires w in s.threads && s.threads[w].pc == Filling
    requires Inv(s)
    ensures Inv(FillOrder(s, w, s.threads[w]))
  {
    assert ThreadOk(s, w) && CanOk(s, s.threads[w].can) && SlotOk(s, s.threads[w].i);
    SlotsAre(s, s.threads[w].can);
    FillFramed(s, w);
    FillOwn(s, w);
    FillAdds(s, w);
    FrameKeeps(s, FillOrder(s, w, s.threads[w]), w, s.threads[w].can);
  }

  lemma HandOverFramed(s: State, w: Who)
    requires w in s.threads && s.threads[w].pc == Collected
    requires ThreadOk(s, w) && CanOk(s, s.threads[w].can) && SlotOk(s, s.threads[w].i)
    ensures Framed(s, OrderPaint(s, w, s.threads[w]), w, s.threads[w].can)
  {
  }

  lemma HandOverOwn(s: State, w: Who)
    requires w in s.threads && s.threads[w].pc == Collected
    requires ThreadOk(s, w) && CanOk(s, s.threads[w].can) && SlotOk(s, s.threads[w].i) && SlotsOf(s, s.threads[w].can)
    requires DeliveriesOf(s, s.threads[w].can)
    ensures ThreadOk(OrderPaint(s, w, s.threads[w]), w) && CanOk(OrderPaint(s, w, s.threads[w]), s.threads[w].can)
    ensures SlotsOf(OrderPaint(s, w, s.threads[w]), s.threads[w].can)
    ensures DeliveriesOf(OrderPaint(s, w, s.threads[w]), s.threads[w].can)
  {
  }

  lemma HandOverAdds(s: State, w: Who)
    requires w in s.threads && s.threads[w].pc == Collected
    requires ThreadOk(s, w) && SlotsAdd(s)
    ensures SlotsAdd(OrderPaint(s, w, s.threads[w]))
  {
  }

  lemma HandOverKeeps(s: State, w: Who)
    requires w in s.threads && s.threads[w].pc == Collected
    requires Inv(s)
    ensures Inv(OrderPaint(s, w, s.threads[w]))
  {
    assert ThreadOk(s, w) && CanOk(s, s.threads[w].can) && SlotOk(s, s.threads[w].i);
    SlotsAre(s, s.threads[w].can);
    HandOverFramed(s, w);
    HandOverOwn(s, w);
    HandOverAdds(s, w);
    FrameKeeps(s, OrderPaint(s, w, s.threads[w]), w, s.threads[w].can);
  }

  // the turns of the four search loops that go on

  lemma TurnPlain(s: State, w: Who)
    requires SlotsAdd(s) && w in s.threads
    ensures var s' := To(s, w, s.threads[w].(i := s.threads[w].i + 1)); Plain(s, s', w) && SlotsAdd(s')
  {
  }

  lemma OrderingThread(s: State, w: Who)
    requires ThreadOk(s, w) && w in s.threads && s.threads[w].pc == Ordering
    requires s.threads[w].i < |s.orders| && s.orders[s.threads[w].i].Some?
    ensures ThreadOk(To(s, w, s.threads[w].(i := s.threads[w].i + 1)), w)
  {
  }

  lemma ServingThread(s: State, w: Who)
    requires ThreadOk(s, w) && w in s.threads && s.threads[w].pc == Serving
    requires s.threads[w].i < |s.deliveries| && s.deliveries[s.threads[w].i].Some?
    ensures ThreadOk(To(s, w, s.threads[w].(i := s.threads[w].i + 1)), w)
  {
  }

  lemma OrderingOn(s: State, w: Who, t: Thread)
    requires ThreadOk(s, w) && SlotsAdd(s) && w in s.threads && s.threads[w] == t && t.pc == Ordering
    requires t.i < |s.orders| && s.orders[t.i].Some?
    ensures PlainStep(s, PlaceOrder(s, w, t), w)
  {
    TurnPlain(s, w);
    OrderingThread(s, w);
  }

  lemma ServingOn(s: State, w: Who, t: Thread)
    requires ThreadOk(s, w) && SlotsAdd(s) && w in s.threads && s.threads[w] == t && t.pc == Serving
    requires t.i < |s.deliveries| && s.deliveries[t.i].Some?
    ensures PlainStep(s, Serve(s, w, t), w)
  {
    TurnPlain(s, w);
    ServingThread(s, w);
  }

  lemma LookingOn(s: State, w: Who, t: Thread)
    requires ThreadOk(s, w) && SlotsAdd(s) && w in s.threads && s.threads[w] == t && t.pc == Looking
    requires (t.i >= |s.deliveries| || s.deliveries[t.i] != Some(t.can))
    ensures PlainStep(s, Look(s, w, t), w)
  {
  }

  lemma TakingOn(s: State, w: Who, t: Thread)
    requires ThreadOk(s, w) && SlotsAdd(s) && w in s.threads && s.threads[w] == t && t.pc == Taking
    requires (t.i >= |s.orders| || s.orders[t.i] == None)
    ensures PlainStep(s, Take(s, w, t), w)
  {
  }

  lemma PlaceOrderKeeps(s: State, w: Who)
    requires Inv(s) && w in s.threads && s.threads[w].pc == Ordering
    ensures Inv(PlaceOrder(s, w, s.threads[w]))
  {
    FindsOrderSlot(s, w);
    if s.orders[s.threads[w].i] == None {
      StoreKeeps(s, w);
    } else {
      assert ThreadOk(s, w);
      OrderingOn(s, w, s.threads[w]);
      PlainKeeps(s, PlaceOrder(s, w, s.threads[w]), w);
    }
  }

  lemma ServeKeeps(s: State, w: Who)
    requires Inv(s) && w in s.threads && s.threads[w].pc == Serving
    ensures Inv(Serve(s, w, s.threads[w]))
  {
    FindsDeliverySlot(s, w);
    if s.deliveries[s.threads[w].i] == None {
      DeliverKeeps(s, w);
    } else {
      assert ThreadOk(s, w);
      ServingOn(s, w, s.threads[w]);
      PlainKeeps(s, Serve(s, w, s.threads[w]), w);
    }
  }

  lemma LookKeeps(s: State, w: Who)
    requires Inv(s) && w in s.threads && s.threads[w].pc == Looking
    ensures Inv(Look(s, w, s.threads[w]))
  {
    var i := s.threads[w].i;
    if i < |s.deliveries| && s.deliveries[i] == Some(s.threads[w].can) {
      CollectKeeps(s, w);
    } else {
      assert ThreadOk(s, w);
      LookingOn(s, w, s.threads[w]);
      PlainKeeps(s, Look(s, w, s.threads[w]), w);
    }
  }

  lemma TakeKeeps(s: State, w: Who)
    requires Inv(s) && w in s.threads && s.threads[w].pc == Taking
    ensures Inv(Take(s, w, s.threads[w]))
  {
    var i := s.threads[w].i;
    if i < |s.orders| && s.orders[i].Some? {
      PickKeeps(s, w);
    } else {
      assert ThreadOk(s, w);
      TakingOn(s, w, s.threads[w]);
      PlainKeeps(s, Take(s, w, s.threads[w]), w);
    }
  }

  lemma OrderKeeps(s: State, w: Who, can: nat)
    requires Inv(s) && Enabled(s, w, Order(can))
    ensures Inv(Do(s, w, Order(can)))
  {
    var s' := Do(s, w, Order(can));
    assert ThreadOk(s, w) && CanOk(s, can);
    SlotsAre(s, can);
    FrameKeeps(s, s', w, can);
  }

  lemma GoHomePlain(s: State, w: Who)
    requires ThreadOk(s, w) && SlotsAdd(s) && Enabled(s, w, GoHome)
    ensures PlainStep(s, Do(s, w, GoHome), w) && w.Customer?
  {
  }

  lemma GoHomeKeeps(s: State, w: Who)
    requires Inv(s) && Enabled(s, w, GoHome)
    ensures Inv(Do(s, w, GoHome))
  {
    var s' := Do(s, w, GoHome);
    assert ThreadOk(s, w);
    GoHomePlain(s, w);
    assert w in Present(s) && Present(s') == Present(s) - {w};
    PlainRest(s, s', w);
  }

  lemma OrderPaintKeeps(s: State, w: Who)
    requires Inv(s) && Enabled(s, w, Next) && OnOrderPc(s.threads[w].pc)
    ensures Inv(OrderPaint(s, w, s.threads[w]))
  {
    assert ThreadOk(s, w);
    var pc, s' := s.threads[w].pc, OrderPaint(s, w, s.threads[w]);
    if pc == Ordering {
      PlaceOrderKeeps(s, w);
    } else if pc == Looking {
      LookKeeps(s, w);
    } else if pc == Collected {
      HandOverKeeps(s, w);
    } else {
      if pc == WantOrderSlot || pc == WantOrderLock {
        OrderSlotPlain(s, w);
      } else if pc == Ordered || pc == Announcing {
        AnnouncePlain(s, w);
      } else if pc == WantReady || pc == WantLookLock {
        ReadyPlain(s, w);
      } else if pc == Looked {
        LookedPlain(s, w);
      } else {
        RepostPlain(s, w);
      }
      PlainKeeps(s, s', w);
    }
  }

  lemma TakeOrderKeeps(s: State, w: Who)
    requires Inv(s) && Enabled(s, w, Next) && InTakePc(s.threads[w].pc)
    ensures Inv(TakeOrder(s, w, s.threads[w]))
  {
    assert ThreadOk(s, w);
    var pc, s' := s.threads[w].pc, TakeOrder(s, w, s.threads[w]);
    if pc == Taking {
      TakeKeeps(s, w);
    } else {
      if pc == Top {
        TopPlain(s, w);
      } else if pc == WantOrder {
        WantOrderPlain(s, w);
      } else if pc == WantTakeLock {
        TakeLockPlain(s, w);
      } else if pc == Took {
        TookPlain(s, w);
      } else if pc == TookRepost {
        TookRepostPlain(s, w);
      } else {
        TookFreePlain(s, w);
      }
      PlainKeeps(s, s', w);
    }
  }

  lemma ServeOrderKeeps(s: State, w: Who)
    requires Inv(s) && Enabled(s, w, Next)
    requires s.threads[w].pc == WantServeSlot || s.threads[w].pc == WantServeLock || s.threads[w].pc == Serving
             || s.threads[w].pc == Served || s.threads[w].pc == Ready
    ensures Inv(ServeOrder(s, w, s.threads[w]))
  {
    assert ThreadOk(s, w);
    var pc, s' := s.threads[w].pc, ServeOrder(s, w, s.threads[w]);
    if pc == Serving {
      ServeKeeps(s, w);
    } else {
      if pc == WantServeSlot {
        ServeSlotPlain(s, w);
      } else if pc == WantServeLock {
        ServeLockPlain(s, w);
      } else if pc == Served {
        ServedPlain(s, w);
      } else {
        PostPlain(s, w);
      }
      PlainKeeps(s, s', w);
    }
  }

  lemma StepKeeps(s: State, w: Who, step: Step)
    requires Inv(s) && Enabled(s, w, step)
    ensures Inv(Do(s, w, step))
  {
    match step
    case Order(can) => OrderKeeps(s, w, can);
    case GoHome => GoHomeKeeps(s, w);
    case Next =>
      if OnOrderPc(s.threads[w].pc) {
        OrderPaintKeeps(s, w);
      } else if InTakePc(s.threads[w].pc) {
        TakeOrderKeeps(s, w);
      } else if s.threads[w].pc == Filling {
        FillKeeps(s, w);
      } else {
        ServeOrderKeeps(s, w);
      }
  }

  // ---------------------------------------------------------------- whole runs

  datatype Act = Act(who: Who, step: Step)

  ghost predicate Run(states: seq<State>, acts: seq<Act>) {
    && |states| == |acts| + 1
    && forall i :: 0 <= i < |acts| ==> Leads(states[i], acts[i], states[i + 1])
  }

  /** A sealed fact: the act can be done in s and leads to s'. */
  ghost predicate Leads(s: State, a: Act, s': State) {
    forall u {:trigger Common.Look(u)} :: Common.Look(u) ==> Enabled(s, a.who, a.step) && s' == Do(s, a.who, a.step)
  }

  /** The invariant holds, and the act leads on. */
  lemma LeadsKeeps(s: State, a: Act, s': State)
    requires Inv(s) && Leads(s, a, s')
    ensures Inv(s')
  {
    assert Common.Look(true);
    StepKeeps(s, a.who, a.step);
  }

  /** paintshop_open with n slots in each buffer, n customers outside and any staff about to start. */
  ghost predicate Open(s: State, n: nat) {
    && |s.orders| == |s.deliveries| == n
    && (forall i :: 0 <= i < n ==> s.orders[i] == None && s.deliveries[i] == None)
    && s.orderEmpty == s.deliveryEmpty == s.remaining == n && s.orderFull == s.readyCans == 0
    && s.orderMutex == s.deliveryMutex == None && s.place == map[] && s.orderHeld == s.deliveryHeld == {}
    && s.announced == s.posted == 0 && s.takers == s.lookers == {}
    && (forall w :: w in s.threads ==> s.threads[w].pc == (if w.Customer? then Outside else Top))
    && |Present(s)| == n
  }

  lemma {:induction false} EmptyBuffer(buf: seq<Option<nat>>)
    requires forall i :: 0 <= i < |buf| ==> buf[i] == None
    ensures Full(buf) == 0
  {
    if buf != [] {
      EmptyBuffer(buf[..|buf| - 1]);
    }
  }

  lemma {:induction false} RunKeeps(states: seq<State>, acts: seq<Act>, n: nat, i: nat)
    requires Run(states, acts) && Open(states[0], n) && i < |states|
    ensures Inv(states[i])
  {
    if i == 0 {
      EmptyBuffer(states[0].orders);
      EmptyBuffer(states[0].deliveries);
    } else {
      RunKeeps(states, acts, n, i - 1);
      LeadsKeeps(states[i - 1], acts[i - 1], states[i]);
    }
  }

  ghost predicate IsAt(s: State, x: nat, p: Place) {
    x in s.place && s.place[x] == p
  }

  /** In every run any can is in a slot or in the hands of a thread exactly if its place says so; so a can
      on order is in exactly one place, and a can that is not on order is nowhere. */
  lemma OnePlace(states: seq<State>, acts: seq<Act>, n: nat, i: nat, x: nat)
    requires Run(states, acts) && Open(states[0], n) && i < |states|
    ensures var s := states[i];
            && (forall j :: 0 <= j < |s.orders| ==> (s.orders[j] == Some(x) <==> IsAt(s, x, OrderSlot(j))))
            && (forall j :: 0 <= j < |s.deliveries| ==> (s.deliveries[j] == Some(x) <==> IsAt(s, x, DeliverySlot(j))))
            && (forall w :: w in s.threads ==> (HasCan(s.threads[w]) && s.threads[w].can == x <==> IsAt(s, x, With(w))))
    ensures var s := states[i];
            x in s.place ==>
              match s.place[x]
              case OrderSlot(j) => j < |s.orders|
              case DeliverySlot(j) => j < |s.deliveries|
              case With(w) => w in s.threads
  {
    RunKeeps(states, acts, n, i);
    var s := states[i];
    assert CanOk(s, x);
    forall j | 0 <= j < |s.orders| ensures s.orders[j] == Some(x) <==> IsAt(s, x, OrderSlot(j)) {
      assert SlotOk(s, j);
    }
    forall j | 0 <= j < |s.deliveries| ensures s.deliveries[j] == Some(x) <==> IsAt(s, x, DeliverySlot(j)) {
      assert SlotOk(s, j);
    }
    forall w | w in s.threads ensures HasCan(s.threads[w]) && s.threads[w].can == x <==> IsAt(s, x, With(w)) {
      assert ThreadOk(s, w);
    }
  }

  /** An order is never stranded: if a customer has announced one and a member of staff finds
      order_buffer_full at 0, another member of staff has it on loan and will give it back. */
  lemma OrdersSeen(states: seq<State>, acts: seq<Act>, n: nat, i: nat, c: Who)
    requires Run(states, acts) && Open(states[0], n) && i < |states|
    requires c in states[i].threads && Announced(states[i].threads[c].pc) && states[i].orderFull == 0
    ensures exists w :: w in states[i].threads && w.Staff? && RoleOf(states[i].threads[w]).seeking
  {
    RunKeeps(states, acts, n, i);
    var s := states[i];
    assert ThreadOk(s, c);
    assert s.takers != {};
    var w :| w in s.takers;
    assert ThreadOk(s, w);
  }

  /** A can in the delivery buffer is never stranded: if its customer finds ready_cans at 0, another
      customer has it on loan, or the member of staff who put the can there is about to post it. */
  lemma CansSeen(states: seq<State>, acts: seq<Act>, n: nat, i: nat, x: nat)
    requires Run(states, acts) && Open(states[0], n) && i < |states|
    requires x in states[i].place && states[i].place[x].DeliverySlot? && states[i].readyCans == 0
    ensures exists w :: w in states[i].threads &&
              if w.Customer? then RoleOf(states[i].threads[w]).seeking else Serves(states[i].threads[w])
  {
    RunKeeps(states, acts, n, i);
    var s := states[i];
    assert CanOk(s, x);
    if s.posted > 0 {
      assert s.lookers != {};
      var w :| w in s.lookers;
      assert ThreadOk(s, w);
    } else {
      assert ThreadOk(s, s.history[x][3].who);
    }
  }

  /** When order_paint returns, its own can was ordered, then taken, filled and served by one member of
      staff, then collected by this customer, and nothing else. */
  lemma ReturnsServed(states: seq<State>, acts: seq<Act>, n: nat, i: nat)
    requires Run(states, acts) && Open(states[0], n) && i < |acts| && acts[i].step == Next
    requires acts[i].who in states[i].threads && states[i].threads[acts[i].who].pc == Collected
    ensures var c, s := acts[i].who, states[i];
            var x := s.threads[c].can;
            x in s.history && exists m ::
              s.history[x] == [OrderedBy(c), TakenBy(m), FilledBy(m), ServedBy(m), CollectedBy(c)]
  {
    RunKeeps(states, acts, n, i);
    var c, s := acts[i].who, states[i];
    assert ThreadOk(s, c);
    var h := s.history[s.threads[c].can];
    assert h == [h[0], h[1], h[2], h[3], h[4]];
    assert h[..4][1] == h[1] && h[..4][2] == h[2] && h[..4][3] == h[3];
    assert h == [OrderedBy(c), TakenBy(h[1].who), FilledBy(h[1].who), ServedBy(h[1].who), CollectedBy(c)];
  }

  /** The customer a can was ordered by has not gone home. */
  lemma OwnerPresent(s: State, x: nat)
    requires Inv(s) && x in s.place
    ensures x in s.history && s.history[x] != [] && s.history[x][0].who in Present(s)
  {
    assert CanOk(s, x);
    assert ThreadOk(s, s.history[x][0].who);
  }

  lemma NothingOnOrder(s: State)
    requires Inv(s) && Present(s) == {}
    ensures s.place == map[] && forall j :: 0 <= j < |s.orders| ==> s.orders[j] == None
  {
    forall x ensures x !in s.place {
      if x in s.place {
        OwnerPresent(s, x);
      }
    }
    forall j | 0 <= j < |s.orders| ensures s.orders[j] == None {
      assert SlotOk(s, j);
    }
  }

  /** A member of staff at the top of take_order is told to exit exactly when every customer has gone home, and
      then nothing is on order. */
  lemma ExitsAtEnd(states: seq<State>, acts: seq<Act>, n: nat, i: nat, w: Who)
    requires Run(states, acts) && Open(states[0], n) && i < |acts| && acts[i] == Act(w, Next)
    requires w in states[i].threads && states[i].threads[w].pc == Top
    ensures var s, s' := states[i], states[i + 1];
            && w in s'.threads
            && (s'.threads[w].pc == Exited <==> forall c :: c in s.threads && c.Customer? ==> s.threads[c].pc == Gone)
            && (s'.threads[w].pc == Exited ==> s.place == map[] && forall j :: 0 <= j < |s.orders| ==> s.orders[j] == None)
  {
    RunKeeps(states, acts, n, i);
    assert Leads(states[i], acts[i], states[i + 1]);
    LeadsFromTop(states[i], w, states[i + 1]);
    var s := states[i];
    if s.remaining == 0 {
      assert forall c :: c in s.threads && c.Customer? ==> c !in Present(s);
      NothingOnOrder(s);
    } else {
      var c :| c in Present(s);
    }
  }

  /** It looks for an order only if, since it last looked, some customer had not gone home. */
  lemma LooksWhileOpen(states: seq<State>, acts: seq<Act>, n: nat, i: nat, w: Who)
    requires Run(states, acts) && Open(states[0], n) && i < |acts| && w in states[i].threads && w in states[i + 1].threads
    requires states[i].threads[w].pc != WantOrder && states[i + 1].threads[w].pc == WantOrder
    ensures acts[i].who == w && exists c :: c in states[i].threads && c.Customer? && states[i].threads[c].pc != Gone
  {
    RunKeeps(states, acts, n, i);
    assert Leads(states[i], acts[i], states[i + 1]);
    LeadsToLook(states[i], acts[i], w, states[i + 1]);
    var c :| c in Present(states[i]);
  }

  lemma LeadsToLook(s: State, a: Act, w: Who, s': State)
    requires Leads(s, a, s') && w in s.threads && w in s'.threads
    requires s.threads[w].pc != WantOrder && s'.threads[w].pc == WantOrder
    ensures a.who == w && s.remaining != 0
  {
    LeadsConcerns(s, a, s');
    LeadsMayLook(s, a, s');
    assert Common.Look(true);
  }

  lemma LeadsConcerns(s: State, a: Act, s': State)
    requires Leads(s, a, s')
    ensures Concerns(s, s', a.who)
  {
    assert Common.Look(true);
    StepConcerns(s, a.who, a.step);
  }

  /** Thread w comes to wait for an order only if there are customers. */
  ghost predicate MayLook(s: State, s': State, w: Who) {
    forall u {:trigger Common.Look(u)} :: Common.Look(u) ==>
      (w in s.threads && w in s'.threads && s'.threads[w].pc == WantOrder && s.threads[w].pc != WantOrder ==> s.remaining != 0)
  }

  lemma LeadsMayLook(s: State, a: Act, s': State)
    requires Leads(s, a, s')
    ensures MayLook(s, s', a.who)
  {
    assert Common.Look(true);
    StepMayLook(s, a.who, a.step);
  }

  lemma StepMayLook(s: State, w: Who, step: Step)
    requires Enabled(s, w, step)
    ensures true == MayLook(s, Do(s, w, step), w)
  {
    if step == Next {
      var pc := s.threads[w].pc;
      if OnOrderPc(pc) {
        CustomerLooksNot(s, w);
      } else if InTakePc(pc) {
        TakerLooks(s, w);
      } else if pc != Filling {
        ServerLooksNot(s, w);
      }
    }
  }

  lemma CustomerLooksNot(s: State, w: Who)
    requires w in s.threads && OnOrderPc(s.threads[w].pc)
    ensures true == MayLook(s, OrderPaint(s, w, s.threads[w]), w)
  {
  }

  lemma TakerLooks(s: State, w: Who)
    requires w in s.threads && InTakePc(s.threads[w].pc)
    ensures true == MayLook(s, TakeOrder(s, w, s.threads[w]), w)
  {
  }

  lemma ServerLooksNot(s: State, w: Who)
    requires w in s.threads && InServePc(s.threads[w].pc)
    ensures true == MayLook(s, ServeOrder(s, w, s.threads[w]), w)
  {
  }

  lemma LeadsFromTop(s: State, w: Who, s': State)
    requires Leads(s, Act(w, Next), s') && w in s.threads && s.threads[w].pc == Top
    ensures w in s'.threads && (s'.threads[w].pc == Exited <==> s.remaining == 0)
  {
    assert Common.Look(true);
  }

  // ---------------------------------------------------------------- what a search comes to

  /** How far the search of a thread has got: what it has passed, and what it has not found. */
  ghost predicate Passed(s: State, t: Thread) {
    match t.pc
    case Ordering => t.i <= |s.orders| && forall j :: 0 <= j < t.i ==> s.orders[j].Some?
    case Serving => t.i <= |s.deliveries| && forall j :: 0 <= j < t.i ==> s.deliveries[j].Some?
    case Taking => t.i <= |s.orders| && forall j :: 0 <= j < t.i ==> s.orders[j] == None
    case Looking => t.i <= |s.deliveries| && forall j :: 0 <= j < t.i ==> s.deliveries[j] != Some(t.can)
    case Took => t.found || forall j :: 0 <= j < |s.orders| ==> s.orders[j] == None
    case Looked => t.found || forall j :: 0 <= j < |s.deliveries| ==> s.deliveries[j] != Some(t.can)
    case _ => true
  }

  /** The thread has the order mutex, or the delivery mutex. */
  predicate AtOrders(pc: Pc) {
    pc == Ordering || pc == Taking || pc == Took
  }

  predicate AtDeliveries(pc: Pc) {
    pc == Serving || pc == Looking || pc == Looked
  }

  /** A step of one of the calls: it changes one thread, and a buffer only inside a search. */
  ghost predicate Concerns(s: State, s': State, w: Who) {
    && w in s.threads && w in s'.threads && s'.threads == s.threads[w := s'.threads[w]]
    && (s'.orders == s.orders || AtOrders(s.threads[w].pc)) && (s'.deliveries == s.deliveries || AtDeliveries(s.threads[w].pc))
    && |s'.orders| == |s.orders| && |s'.deliveries| == |s.deliveries|
  }

  lemma CustomerConcerns(s: State, w: Who)
    requires w in s.threads && OnOrderPc(s.threads[w].pc)
    ensures Concerns(s, OrderPaint(s, w, s.threads[w]), w)
  {
  }

  lemma OrderingPassed(s: State, w: Who)
    requires w in s.threads && s.threads[w].pc == Ordering && Passed(s, s.threads[w])
    ensures var s' := PlaceOrder(s, w, s.threads[w]); w in s'.threads && Passed(s', s'.threads[w])
  {
  }

  lemma LookingPassed(s: State, w: Who)
    requires w in s.threads && s.threads[w].pc == Looking && Passed(s, s.threads[w])
    ensures var s' := Look(s, w, s.threads[w]); w in s'.threads && Passed(s', s'.threads[w])
  {
  }

  lemma CustomerPassed(s: State, w: Who)
    requires w in s.threads && OnOrderPc(s.threads[w].pc) && Passed(s, s.threads[w])
    ensures var s' := OrderPaint(s, w, s.threads[w]); w in s'.threads && Passed(s', s'.threads[w])
  {
    if s.threads[w].pc == Ordering {
      OrderingPassed(s, w);
    } else if s.threads[w].pc == Looking {
      LookingPassed(s, w);
    }
  }

  lemma TakerConcerns(s: State, w: Who)
    requires w in s.threads && InTakePc(s.threads[w].pc)
    ensures Concerns(s, TakeOrder(s, w, s.threads[w]), w)
  {
  }

  lemma TakingPassed(s: State, w: Who)
    requires w in s.threads && s.threads[w].pc == Taking && Passed(s, s.threads[w])
    ensures var s' := Take(s, w, s.threads[w]); w in s'.threads && Passed(s', s'.threads[w])
  {
  }

  lemma TakerPassed(s: State, w: Who)
    requires w in s.threads && InTakePc(s.threads[w].pc) && Passed(s, s.threads[w])
    ensures var s' := TakeOrder(s, w, s.threads[w]); w in s'.threads && Passed(s', s'.threads[w])
  {
    if s.threads[w].pc == Taking {
      TakingPassed(s, w);
    }
  }

  predicate InServePc(pc: Pc) {
    pc == WantServeSlot || pc == WantServeLock || pc == Serving || pc == Served || pc == Ready
  }

  lemma ServerConcerns(s: State, w: Who)
    requires w in s.threads && InServePc(s.threads[w].pc)
    ensures Concerns(s, ServeOrder(s, w, s.threads[w]), w)
  {
  }

  lemma ServingPassed(s: State, w: Who)
    requires w in s.threads && s.threads[w].pc == Serving && Passed(s, s.threads[w])
    ensures var s' := Serve(s, w, s.threads[w]); w in s'.threads && Passed(s', s'.threads[w])
  {
  }

  lemma ServerPassed(s: State, w: Who)
    requires w in s.threads && InServePc(s.threads[w].pc) && Passed(s, s.threads[w])
    ensures var s' := ServeOrder(s, w, s.threads[w]); w in s'.threads && Passed(s', s'.threads[w])
  {
    if s.threads[w].pc == Serving {
      ServingPassed(s, w);
    }
  }

  lemma StepConcerns(s: State, w: Who, step: Step)
    requires Enabled(s, w, step)
    ensures Concerns(s, Do(s, w, step), w)
  {
    if step == Next {
      var pc := s.threads[w].pc;
      if OnOrderPc(pc) {
        CustomerConcerns(s, w);
      } else if InTakePc(pc) {
        TakerConcerns(s, w);
      } else if pc != Filling {
        ServerConcerns(s, w);
      }
    }
  }

  lemma StepPassed(s: State, w: Who, step: Step)
    requires Enabled(s, w, step) && Passed(s, s.threads[w])
    ensures var s' := Do(s, w, step); w in s'.threads && Passed(s', s'.threads[w])
  {
    if step == Next {
      var pc := s.threads[w].pc;
      if OnOrderPc(pc) {
        CustomerPassed(s, w);
      } else if InTakePc(pc) {
        TakerPassed(s, w);
      } else if pc != Filling {
        ServerPassed(s, w);
      }
    }
  }

  /** Two threads are not at one buffer. */
  lemma Apart(s: State, v: Who, w: Who)
    requires ThreadOk(s, v) && ThreadOk(s, w) && v in s.threads && w in s.threads && v != w
    ensures !(AtOrders(s.threads[v].pc) && AtOrders(s.threads[w].pc))
    ensures !(AtDeliveries(s.threads[v].pc) && AtDeliveries(s.threads[w].pc))
  {
  }

  lemma OthersPassed(s: State, s': State, w: Who, v: Who)
    requires ThreadOk(s, w) && ThreadOk(s, v) && Concerns(s, s', w) && v != w && v in s.threads && Passed(s, s.threads[v])
    ensures v in s'.threads && Passed(s', s'.threads[v])
  {
    Apart(s, v, w);
    assert AtOrders(s.threads[v].pc) ==> s'.orders == s.orders;
    assert AtDeliveries(s.threads[v].pc) ==> s'.deliveries == s.deliveries;
  }

  ghost predicate AllPassed(s: State) {
    forall w :: w in s.threads ==> Passed(s, s.threads[w])
  }

  lemma PassedOn(s: State, a: Act, s': State)
    requires Inv(s) && AllPassed(s) && Leads(s, a, s')
    ensures AllPassed(s')
  {
    assert Common.Look(true);
    StepConcerns(s, a.who, a.step);
    StepPassed(s, a.who, a.step);
    PassedFrame(s, s', a.who);
  }

  lemma PassedFrame(s: State, s': State, w: Who)
    requires Inv(s) && AllPassed(s) && Concerns(s, s', w) && Passed(s', s'.threads[w])
    ensures AllPassed(s')
  {
    forall v | v in s'.threads ensures Passed(s', s'.threads[v]) {
      if v != w {
        assert ThreadOk(s, v) && ThreadOk(s, w);
        OthersPassed(s, s', w, v);
      }
    }
  }

  lemma {:induction false} RunPassed(states: seq<State>, acts: seq<Act>, n: nat, i: nat)
    requires Run(states, acts) && Open(states[0], n) && i < |states|
    ensures AllPassed(states[i])
  {
    if i > 0 {
      RunKeeps(states, acts, n, i - 1);
      RunPassed(states, acts, n, i - 1);
      PassedOn(states[i - 1], acts[i - 1], states[i]);
    }
  }

  /** In every run, while a thread that has searched in vain still has the mutex: a customer's can is in
      no delivery slot, and no order is in any order slot. */
  lemma SearchedAll(states: seq<State>, acts: seq<Act>, n: nat, i: nat, w: Who)
    requires Run(states, acts) && Open(states[0], n) && i < |states| && w in states[i].threads && !states[i].threads[w].found
    ensures var s, t := states[i], states[i].threads[w];
            && (t.pc == Looked ==>
                  s.deliveryMutex == Some(w) && forall j :: 0 <= j < |s.deliveries| ==> s.deliveries[j] != Some(t.can))
            && (t.pc == Took ==> s.orderMutex == Some(w) && forall j :: 0 <= j < |s.orders| ==> s.orders[j] == None)
  {
    RunKeeps(states, acts, n, i);
    RunPassed(states, acts, n, i);
    SearchedHere(states[i], w);
  }

  lemma SearchedHere(s: State, w: Who)
    requires Inv(s) && AllPassed(s) && w in s.threads && !s.threads[w].found
    ensures s.threads[w].pc == Looked ==>
              s.deliveryMutex == Some(w) && forall j :: 0 <= j < |s.deliveries| ==> s.deliveries[j] != Some(s.threads[w].can)
    ensures s.threads[w].pc == Took ==> s.orderMutex == Some(w) && forall j :: 0 <= j < |s.orders| ==> s.orders[j] == None
  {
    assert ThreadOk(s, w);
  }

  /** Thread w is at this point of its program from state i on, up to state j. */
  ghost predicate At(states: seq<State>, i: nat, j: nat, w: Who, pc: Pc) {
    j < |states| && forall m :: i <= m <= j ==> w in states[m].threads && states[m].threads[w].pc == pc
  }

  /** Where a thread takes a mutex, and the search that follows. */
  ghost predicate Begins(was: Pc, pc: Pc) {
    || (was == WantOrderLock && pc == Ordering) || (was == WantTakeLock && pc == Taking)
    || (was == WantServeLock && pc == Serving) || (was == WantLookLock && pc == Looking)
  }

  lemma BeginsPlain(s: State, w: Who, pc: Pc)
    requires Enabled(s, w, Next) && Begins(s.threads[w].pc, pc)
    ensures Untouched(s, Do(s, w, Next), w, pc)
  {
    var t := s.threads[w];
    if pc == Ordering || pc == Looking {
      assert Do(s, w, Next) == OrderPaint(s, w, t);
    } else if pc == Taking {
      assert Do(s, w, Next) == TakeOrder(s, w, t);
    } else {
      assert Do(s, w, Next) == ServeOrder(s, w, t);
    }
  }

  /** What a search has changed so far: nothing. */
  ghost predicate Untouched(s: State, s': State, w: Who, pc: Pc) {
    forall u {:trigger Common.Look(u)} :: Common.Look(u) ==>
      && w in s.threads && w in s'.threads && s'.threads[w].can == s.threads[w].can
      && (AtOrders(pc) ==> s'.orders == s.orders) && (AtDeliveries(pc) ==> s'.deliveries == s.deliveries)
  }

  /** While it searches, the buffer stays as it was when it took the mutex. */
  lemma {:induction false} SameWhile(states: seq<State>, i: nat, j: nat, w: Who, pc: Pc)
    requires i < j < |states| && forall m :: i <= m < j ==> Untouched(states[m], states[m + 1], w, pc)
    ensures Untouched(states[i], states[j], w, pc)
    decreases j
  {
    if j > i + 1 {
      SameWhile(states, i, j - 1, w, pc);
      UntouchedTwice(states[i], states[j - 1], states[j], w, pc);
    }
  }

  lemma UntouchedTwice(s: State, s': State, s'': State, w: Who, pc: Pc)
    requires Untouched(s, s', w, pc) && Untouched(s', s'', w, pc)
    ensures Untouched(s, s'', w, pc)
  {
    assert Common.Look(true);
  }

  lemma EveryTurn(states: seq<State>, acts: seq<Act>, n: nat, i: nat, j: nat, w: Who, pc: Pc)
    requires Run(states, acts) && Open(states[0], n) && i < j < |states| && acts[i] == Act(w, Next)
    requires w in states[i].threads && At(states, i + 1, j, w, pc) && Begins(states[i].threads[w].pc, pc)
    ensures forall m :: i <= m < j ==> Untouched(states[m], states[m + 1], w, pc)
  {
    forall m | i <= m < j ensures Untouched(states[m], states[m + 1], w, pc) {
      if m == i {
        FirstTurn(states, acts, i, w, pc);
      } else {
        NextTurn(states, acts, n, m, w, pc);
      }
    }
  }

  lemma FirstTurn(states: seq<State>, acts: seq<Act>, i: nat, w: Who, pc: Pc)
    requires Run(states, acts) && i < |acts| && acts[i] == Act(w, Next)
    requires w in states[i].threads && Begins(states[i].threads[w].pc, pc)
    ensures Untouched(states[i], states[i + 1], w, pc)
  {
    assert Leads(states[i], acts[i], states[i + 1]) && Common.Look(true);
    BeginsPlain(states[i], w, pc);
  }

  lemma NextTurn(states: seq<State>, acts: seq<Act>, n: nat, i: nat, w: Who, pc: Pc)
    requires Run(states, acts) && Open(states[0], n) && i < |acts| && At(states, i, i + 1, w, pc)
    requires pc == Ordering || pc == Taking || pc == Serving || pc == Looking
    ensures Untouched(states[i], states[i + 1], w, pc)
  {
    RunKeeps(states, acts, n, i);
    LeadsOn(states[i], acts[i], states[i + 1], w, pc);
  }

  lemma LeadsOn(s: State, a: Act, s': State, w: Who, pc: Pc)
    requires Inv(s) && Leads(s, a, s') && w in s.threads && w in s'.threads && s.threads[w].pc == s'.threads[w].pc == pc
    requires pc == Ordering || pc == Taking || pc == Serving || pc == Looking
    ensures Untouched(s, s', w, pc)
  {
    assert Common.Look(true);
    assert ThreadOk(s, a.who) && ThreadOk(s, w);
    SearchOn(s, a.who, a.step, w, pc);
  }

  lemma SearchOn(s: State, v: Who, step: Step, w: Who, pc: Pc)
    requires ThreadOk(s, v) && ThreadOk(s, w) && Enabled(s, v, step) && w in s.threads && s.threads[w].pc == pc
    requires pc == Ordering || pc == Taking || pc == Serving || pc == Looking
    requires w in Do(s, v, step).threads && Do(s, v, step).threads[w].pc == pc
    ensures Untouched(s, Do(s, v, step), w, pc)
  {
    if v == w {
      StillSearching(s, w);
    } else {
      StepConcerns(s, v, step);
      Apart(s, v, w);
    }
  }

  lemma StillSearching(s: State, w: Who)
    requires Enabled(s, w, Next)
    requires var pc := s.threads[w].pc; pc == Ordering || pc == Taking || pc == Serving || pc == Looking
    requires w in Do(s, w, Next).threads && Do(s, w, Next).threads[w].pc == s.threads[w].pc
    ensures var s' := Do(s, w, Next);
            s'.orders == s.orders && s'.deliveries == s.deliveries && s'.threads[w] == s.threads[w].(i := s'.threads[w].i)
  {
  }

  /** Slot k is the first that satisfies what is looked for. */
  ghost predicate FirstFree(buf: seq<Option<nat>>, k: nat) {
    k < |buf| && buf[k] == None && forall j :: 0 <= j < k ==> buf[j].Some?
  }

  ghost predicate FirstTaken(buf: seq<Option<nat>>, k: nat) {
    k < |buf| && buf[k].Some? && forall j :: 0 <= j < k ==> buf[j] == None
  }

  /** What a search comes to, as one action on the buffers of s. */
  ghost predicate Searched(s: State, s': State, w: Who, pc: Pc)
    requires w in s.threads && w in s'.threads
  {
    var t, t' := s.threads[w], s'.threads[w];
    match pc
    case Ordering =>
      t'.pc == Ordered && exists k: nat :: FirstFree(s.orders, k) && s'.orders == s.orders[k := Some(t.can)]
    case Serving =>
      t'.pc == Served && exists k: nat :: FirstFree(s.deliveries, k) && s'.deliveries == s.deliveries[k := Some(t.can)]
    case Taking =>
      t'.pc == Took &&
      if t'.found then
        exists k: nat :: FirstTaken(s.orders, k) && t'.can == s.orders[k].value && s'.orders == s.orders[k := None]
      else s'.orders == s.orders && forall k :: 0 <= k < |s.orders| ==> s.orders[k] == None
    case Looking =>
      t'.pc == Looked && t'.can == t.can &&
      if t'.found then
        exists k :: 0 <= k < |s.deliveries| && s.deliveries[k] == Some(t.can) && s'.deliveries == s.deliveries[k := None]
      else s'.deliveries == s.deliveries && forall k :: 0 <= k < |s.deliveries| ==> s.deliveries[k] != Some(t.can)
    case _ => false
  }

  /** One whole search, from the mutex being taken at act i to the end of the loop at act j, whatever runs in
      between: it is one action on the buffer as it was at act i.  order_paint puts its can into the first
      free slot; take_order takes what is in the first slot that is not free, or finds all of them free;
      serve_order puts its can into the first free slot; and order_paint takes its own can from where it
      is, or finds that it is nowhere. */
  lemma OneAction(states: seq<State>, acts: seq<Act>, n: nat, i: nat, j: nat, w: Who, pc: Pc)
    requires Run(states, acts) && Open(states[0], n) && i < j < |acts| && acts[i] == acts[j] == Act(w, Next)
    requires w in states[i].threads && At(states, i + 1, j, w, pc) && Begins(states[i].threads[w].pc, pc)
    requires w in states[j + 1].threads && states[j + 1].threads[w].pc != pc
    ensures Searched(states[i], states[j + 1], w, pc)
  {
    EveryTurn(states, acts, n, i, j, w, pc);
    SameWhile(states, i, j, w, pc);
    RunKeeps(states, acts, n, j);
    RunPassed(states, acts, n, j);
    assert Leads(states[j], acts[j], states[j + 1]);
    LeadsOut(states[j], w, pc, states[j + 1]);
    SearchedFrom(states[i], states[j], states[j + 1], w, pc);
  }

  lemma LeadsOut(s: State, w: Who, pc: Pc, s': State)
    requires Inv(s) && AllPassed(s) && Leads(s, Act(w, Next), s') && w in s.threads && s.threads[w].pc == pc
    requires (pc == Ordering || pc == Taking || pc == Serving || pc == Looking) && w in s'.threads && s'.threads[w].pc != pc
    ensures Searched(s, s', w, pc)
  {
    assert Common.Look(true);
    LastTurn(s, w, pc);
  }

  lemma SearchedFrom(s0: State, s: State, s': State, w: Who, pc: Pc)
    requires Untouched(s0, s, w, pc) && w in s0.threads && w in s.threads && w in s'.threads && Searched(s, s', w, pc)
    ensures Searched(s0, s', w, pc)
  {
    assert Common.Look(true);
  }

  lemma LastTurn(s: State, w: Who, pc: Pc)
    requires Inv(s) && Enabled(s, w, Next) && s.threads[w].pc == pc && Passed(s, s.threads[w])
    requires pc == Ordering || pc == Taking || pc == Serving || pc == Looking
    requires w in Do(s, w, Next).threads && Do(s, w, Next).threads[w].pc != pc
    ensures Searched(s, Do(s, w, Next), w, pc)
  {
    assert ThreadOk(s, w);
    if pc == Ordering {
      FindsOrderSlot(s, w);
      LastOrdering(s, w);
    } else if pc == Serving {
      FindsDeliverySlot(s, w);
      LastServing(s, w);
    } else if pc == Taking {
      LastTaking(s, w);
    } else {
      LastLooking(s, w);
    }
  }

  lemma LastOrdering(s: State, w: Who)
    requires w in s.threads && s.threads[w].pc == Ordering && Passed(s, s.threads[w]) && s.threads[w].i < |s.orders|
    requires PlaceOrder(s, w, s.threads[w]).threads[w].pc != Ordering
    ensures Searched(s, PlaceOrder(s, w, s.threads[w]), w, Ordering)
  {
    assert FirstFree(s.orders, s.threads[w].i);
  }

  lemma LastServing(s: State, w: Who)
    requires w in s.threads && s.threads[w].pc == Serving && Passed(s, s.threads[w]) && s.threads[w].i < |s.deliveries|
    requires Serve(s, w, s.threads[w]).threads[w].pc != Serving
    ensures Searched(s, Serve(s, w, s.threads[w]), w, Serving)
  {
    assert FirstFree(s.deliveries, s.threads[w].i);
  }

  lemma LastTaking(s: State, w: Who)
    requires w in s.threads && s.threads[w].pc == Taking && Passed(s, s.threads[w]) && !s.threads[w].found
    requires Take(s, w, s.threads[w]).threads[w].pc != Taking
    ensures Searched(s, Take(s, w, s.threads[w]), w, Taking)
  {
    assert s.threads[w].i < |s.orders| ==> FirstTaken(s.orders, s.threads[w].i);
  }

  lemma LastLooking(s: State, w: Who)
    requires w in s.threads && s.threads[w].pc == Looking && Passed(s, s.threads[w]) && !s.threads[w].found
    requires Look(s, w, s.threads[w]).threads[w].pc != Looking
    ensures Searched(s, Look(s, w, s.threads[w]), w, Looking)
  {
  }

  // ---------------------------------------------------------------- how long a round takes

  /** The steps a thread has to go at most before it goes round its loop, is outside, or is done, with n slots in
      each buffer. */
  function StepsLeft(t: Thread, n: nat): int {
    match t.pc
    case WantOrderSlot => 2 * n + 13
    case WantOrderLock => 2 * n + 12
    case Ordering => 2 * n + 11 - t.i
    case Ordered => n + 9
    case Announcing => n + 8
    case WantReady => n + 7
    case WantLookLock => n + 6
    case Looking => n + 5 - t.i
    case Looked => 3
    case Repost => 2
    case Collected => 1
    case Top => 2 * n + 16
    case WantOrder => 2 * n + 15
    case WantTakeLock => 2 * n + 14
    case Taking => 2 * n + 13 - t.i
    case Took => n + 11
    case TookRepost => n + 10
    case TookFree => n + 9
    case Filling => n + 8
    case WantServeSlot => n + 7
    case WantServeLock => n + 6
    case Serving => n + 5 - t.i
    case Served => 3
    case Ready => 2
    case _ => 0
  }

  /** A thread that has not found what it looked for goes back to the start of its loop, and one that has served
      goes on to the next order. */
  predicate GoesRound(t: Thread) {
    ((t.pc == Repost || t.pc == TookRepost) && !t.found) || t.pc == Ready
  }

  /** In every run each step of a thread brings it nearer to the end of its round. */
  lemma Nearer(states: seq<State>, acts: seq<Act>, n: nat, i: nat)
    requires Run(states, acts) && Open(states[0], n) && i < |acts| && acts[i].step == Next
    requires acts[i].who in states[i].threads && !GoesRound(states[i].threads[acts[i].who])
    ensures var w := acts[i].who;
            w in states[i + 1].threads && 0 <= StepsLeft(states[i + 1].threads[w], n) < StepsLeft(states[i].threads[w], n)
  {
    RunKeeps(states, acts, n, i);
    RunPassed(states, acts, n, i);
    RunSizes(states, acts, n, i);
    assert Leads(states[i], acts[i], states[i + 1]);
    LeadsNearer(states[i], acts[i].who, n, states[i + 1]);
  }

  /** And where it goes round, it is at the start of the next. */
  lemma RoundAgain(states: seq<State>, acts: seq<Act>, n: nat, i: nat)
    requires Run(states, acts) && Open(states[0], n) && i < |acts| && acts[i].step == Next
    requires acts[i].who in states[i].threads && GoesRound(states[i].threads[acts[i].who])
    ensures var w := acts[i].who;
            w in states[i + 1].threads && states[i + 1].threads[w].pc == if w.Customer? then WantReady else Top
  {
    RunKeeps(states, acts, n, i);
    assert ThreadOk(states[i], acts[i].who);
    assert Leads(states[i], acts[i], states[i + 1]);
    LeadsRound(states[i], acts[i].who, states[i + 1]);
  }

  lemma LeadsRound(s: State, w: Who, s': State)
    requires ThreadOk(s, w) && Leads(s, Act(w, Next), s') && w in s.threads && GoesRound(s.threads[w])
    ensures w in s'.threads && s'.threads[w].pc == if w.Customer? then WantReady else Top
  {
    assert Common.Look(true);
  }

  lemma {:induction false} RunSizes(states: seq<State>, acts: seq<Act>, n: nat, i: nat)
    requires Run(states, acts) && Open(states[0], n) && i < |states|
    ensures |states[i].orders| == |states[i].deliveries| == n
  {
    if i > 0 {
      RunSizes(states, acts, n, i - 1);
      LeadsConcerns(states[i - 1], acts[i - 1], states[i]);
    }
  }

  lemma LeadsNearer(s: State, w: Who, n: nat, s': State)
    requires Inv(s) && AllPassed(s) && |s.orders| == |s.deliveries| == n && Leads(s, Act(w, Next), s')
    requires w in s.threads && !GoesRound(s.threads[w])
    ensures w in s'.threads && 0 <= StepsLeft(s'.threads[w], n) < StepsLeft(s.threads[w], n)
  {
    assert Common.Look(true);
    if OnOrderPc(s.threads[w].pc) {
      CustomerNearer(s, w, n);
    } else if InTakePc(s.threads[w].pc) {
      TakerNearer(s, w, n);
    } else if s.threads[w].pc != Filling {
      ServerNearer(s, w, n);
    }
  }

  /** One step on the way. */
  ghost predicate IsNearer(s: State, s': State, w: Who, n: nat) {
    w in s.threads && w in s'.threads && 0 <= StepsLeft(s'.threads[w], n) < StepsLeft(s.threads[w], n)
  }

  lemma PlaceOrderNearer(s: State, w: Who)
    requires w in s.threads && s.threads[w].pc == Ordering && Passed(s, s.threads[w])
    ensures IsNearer(s, PlaceOrder(s, w, s.threads[w]), w, |s.orders|)
  {
  }

  lemma LookNearer(s: State, w: Who)
    requires w in s.threads && s.threads[w].pc == Looking && Passed(s, s.threads[w])
    ensures IsNearer(s, Look(s, w, s.threads[w]), w, |s.deliveries|)
  {
  }

  lemma CustomerNearer(s: State, w: Who, n: nat)
    requires w in s.threads && OnOrderPc(s.threads[w].pc) && !GoesRound(s.threads[w]) && Passed(s, s.threads[w])
    requires |s.orders| == |s.deliveries| == n
    ensures IsNearer(s, OrderPaint(s, w, s.threads[w]), w, n)
  {
    if s.threads[w].pc == Ordering {
      PlaceOrderNearer(s, w);
    } else if s.threads[w].pc == Looking {
      LookNearer(s, w);
    }
  }

  lemma TakeNearer(s: State, w: Who)
    requires w in s.threads && s.threads[w].pc == Taking && Passed(s, s.threads[w])
    ensures IsNearer(s, Take(s, w, s.threads[w]), w, |s.orders|)
  {
  }

  lemma TakerNearer(s: State, w: Who, n: nat)
    requires w in s.threads && InTakePc(s.threads[w].pc) && !GoesRound(s.threads[w]) && Passed(s, s.threads[w])
    requires |s.orders| == n
    ensures IsNearer(s, TakeOrder(s, w, s.threads[w]), w, n)
  {
    if s.threads[w].pc == Taking {
      TakeNearer(s, w);
    }
  }

  lemma ServeNearer(s: State, w: Who)
    requires w in s.threads && s.threads[w].pc == Serving && Passed(s, s.threads[w])
    ensures IsNearer(s, Serve(s, w, s.threads[w]), w, |s.deliveries|)
  {
  }

  lemma ServerNearer(s: State, w: Who, n: nat)
    requires w in s.threads && InServePc(s.threads[w].pc) && !GoesRound(s.threads[w]) && Passed(s, s.threads[w])
    requires |s.deliveries| == n
    ensures IsNearer(s, ServeOrder(s, w, s.threads[w]), w, n)
  {
    if s.threads[w].pc == Serving {
      ServeNearer(s, w);
    }
  }
}
