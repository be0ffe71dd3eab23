/** The cargo hold of one ship (ship.rs), updated in place, and what every sequence of loading and
    unloading keeps. */
module CargoHold {
  import opened Prelude
  import opened Ships

  /** Types occur once, and the capacity is respected. */
  ghost predicate Loose(hold: seq<CargoItem>, capacity: nat) {
    && (forall i, j | 0 <= i < j < |hold| :: hold[i].cargoType != hold[j].cargoType)
    && CargoUsed(hold) <= capacity
  }

  /** And no item is empty. */
  ghost predicate Sound(hold: seq<CargoItem>, capacity: nat) {
    Loose(hold, capacity) && forall i | 0 <= i < |hold| :: hold[i].quantity > 0
  }

  /** The quantity of the item of a type, if there is one: an item may be empty. */
  function Held(hold: seq<CargoItem>, cargoType: CargoType): Option<nat> {
    var i := Find(hold, cargoType);
    if i < |hold| then Some(hold[i].quantity) else None
  }

  /** The amount held of a type. */
  function Amount(hold: seq<CargoItem>, cargoType: CargoType): nat {
    var i := Find(hold, cargoType);
    if i < |hold| then hold[i].quantity else 0
  }

  /** The money a type stands for at its book price. */
  function BookValue(hold: seq<CargoItem>, cargoType: CargoType): int {
    var i := Find(hold, cargoType);
    if i < |hold| then hold[i].quantity * hold[i].purchasePrice else 0
  }

  // ---------- one add, one remove ----------

  lemma {:induction false} UsedAfterUpdate(hold: seq<CargoItem>, i: nat, c: CargoItem)
    requires i < |hold|
    ensures CargoUsed(hold[i := c]) == CargoUsed(hold) - hold[i].quantity + c.quantity
    decreases |hold|
  {
    var n := |hold| - 1;
    if i < n {
      UsedAfterUpdate(hold[..n], i, c);
      assert hold[i := c][..n] == hold[..n][i := c];
    } else {
      assert hold[i := c][..n] == hold[..n];
    }
  }

  lemma UsedSnoc(hold: seq<CargoItem>, c: CargoItem)
    ensures CargoUsed(hold + [c]) == CargoUsed(hold) + c.quantity
  {
    assert (hold + [c])[..|hold|] == hold;
  }

  lemma FoundAt(hold: seq<CargoItem>, i: nat)
    requires i < |hold| && forall a, b | 0 <= a < b < |hold| :: hold[a].cargoType != hold[b].cargoType
    ensures Find(hold, hold[i].cargoType) == i
  {
    var f := Find(hold, hold[i].cargoType);
    assert f <= i;
  }

  lemma DivisionBounds(a: int, b: int)
    requires b > 0
    ensures var q := TruncatedDiv(a, b); -b < a - q * b < b && (a >= 0 ==> q * b <= a) && (a <= 0 ==> a <= q * b)
  {
    if a >= 0 {
      assert a == (a / b) * b + a % b;
    } else {
      assert -a == ((-a) / b) * b + (-a) % b;
    }
  }

  /** A hold is sound exactly when no type is held in an empty item. */
  lemma SoundHoldsNothingEmpty(hold: seq<CargoItem>, capacity: nat)
    ensures Sound(hold, capacity) <==> Loose(hold, capacity) && forall t: CargoType :: Held(hold, t) != Some(0)
  {
    hide Find, CargoUsed;
    if Loose(hold, capacity) {
      if i :| 0 <= i < |hold| && hold[i].quantity == 0 {
        FoundAt(hold, i);
        assert Held(hold, hold[i].cargoType) == Some(0);
      }
    }
  }

  /** Adding fails when there is no room, and divides by zero when nothing is added to an empty item.
      Otherwise it changes the item of that type only. */
  lemma AddKeepsLoose(hold: seq<CargoItem>, capacity: nat, cargoType: CargoType, quantity: nat, price: int)
    requires Loose(hold, capacity)
    ensures var r := AddCargo(hold, capacity, cargoType, quantity, price);
            if CargoUsed(hold) + quantity > capacity then r == NoRoom
            else if Held(hold, cargoType) == Some(0) && quantity == 0 then r == DivisionByZero
            else
              && r.Added? && Loose(r.hold, capacity)
              && CargoUsed(r.hold) == CargoUsed(hold) + quantity
              && forall t: CargoType :: Held(r.hold, t) == if t == cargoType then Some(Amount(hold, t) + quantity) else Held(hold, t)
  {
    hide Find, TruncatedDiv, CargoUsed;
    var r := AddCargo(hold, capacity, cargoType, quantity, price);
    var i := Find(hold, cargoType);
    if r.Added? {
      hide Held, Amount;
      if i == |hold| {
        UsedSnoc(hold, r.hold[i]);
      } else {
        UsedAfterUpdate(hold, i, r.hold[i]);
        assert forall k | 0 <= k < |hold| :: r.hold[k].cargoType == hold[k].cargoType;
      }
      forall t: CargoType ensures Held(r.hold, t) == if t == cargoType then Some(Amount(hold, t) + quantity) else Held(hold, t) {
        HeldAfterAdd(hold, i, CargoItem(cargoType, quantity, price), r.hold[i].purchasePrice, r.hold, t);
      }
    }
  }

  lemma HeldAfterAdd(hold: seq<CargoItem>, i: nat, c: CargoItem, price: int, after: seq<CargoItem>, t: CargoType)
    requires forall a, b | 0 <= a < b < |hold| :: hold[a].cargoType != hold[b].cargoType
    requires i == Find(hold, c.cargoType)
    requires if i == |hold| then after == hold + [c]
             else after == hold[i := CargoItem(c.cargoType, hold[i].quantity + c.quantity, price)]
    ensures Held(after, t) == if t == c.cargoType then Some(Amount(hold, t) + c.quantity) else Held(hold, t)
  {
    hide Find;
    if i < |hold| {
      SameTypesFound(hold, after, t);
    } else {
      FoundInSnoc(hold, c, t);
    }
  }

  lemma SameTypesFound(a: seq<CargoItem>, b: seq<CargoItem>, t: CargoType)
    requires |a| == |b| && forall k | 0 <= k < |a| :: a[k].cargoType == b[k].cargoType
    ensures Find(a, t) == Find(b, t)
  {
    hide Find;
    var (i, j) := (Find(a, t), Find(b, t));
    assert !(i < j) && !(j < i);
  }

  lemma FoundInSnoc(hold: seq<CargoItem>, c: CargoItem, t: CargoType)
    ensures Find(hold + [c], t) == if Find(hold, t) == |hold| && t != c.cargoType then |hold| + 1 else Find(hold, t)
  {
    assert (hold + [c])[..|hold|] == hold;
  }

  lemma AmountIsHeld(hold: seq<CargoItem>, t: CargoType)
    ensures Amount(hold, t) == Held(hold, t).GetOr(0)
  {
  }

  /** Adding something succeeds exactly when there is room, and changes the amount of that type only. */
  lemma AddKeepsSound(hold: seq<CargoItem>, capacity: nat, cargoType: CargoType, quantity: nat, price: int)
    requires Sound(hold, capacity) && quantity >= 1
    ensures var r := AddCargo(hold, capacity, cargoType, quantity, price);
            if CargoUsed(hold) + quantity > capacity then r == NoRoom
            else
              && r.Added? && Sound(r.hold, capacity)
              && CargoUsed(r.hold) == CargoUsed(hold) + quantity
              && forall t: CargoType :: Amount(r.hold, t) == Amount(hold, t) + if t == cargoType then quantity else 0
  {
    var r := AddCargo(hold, capacity, cargoType, quantity, price);
    AddKeepsLoose(hold, capacity, cargoType, quantity, price);
    SoundHoldsNothingEmpty(hold, capacity);
    if r.Added? {
      SoundHoldsNothingEmpty(r.hold, capacity);
      hide AddCargo, Held, Amount, Sound, Loose, CargoUsed;
      forall t: CargoType ensures Amount(r.hold, t) == Amount(hold, t) + if t == cargoType then quantity else 0 {
        AmountIsHeld(hold, t);
        AmountIsHeld(r.hold, t);
      }
    }
  }

  /** `after` is `before` plus what was paid, up to less than `amount`, and never more when it is not
      negative. */
  ghost predicate Averaged(before: int, paid: int, after: int, amount: nat) {
    && 0 - amount < before + paid - after < amount
    && (before + paid >= 0 ==> after <= before + paid)
  }

  /** One add loses less than the new quantity in book value. */
  lemma AddBookValue(hold: seq<CargoItem>, capacity: nat, cargoType: CargoType, quantity: nat, price: int)
    requires Sound(hold, capacity) && quantity >= 1 && CargoUsed(hold) + quantity <= capacity
    ensures var r := AddCargo(hold, capacity, cargoType, quantity, price);
            && r.Added?
            && Averaged(BookValue(hold, cargoType), price * quantity, BookValue(r.hold, cargoType), Amount(r.hold, cargoType))
  {
    var i := Find(hold, cargoType);
    hide Averaged;
    if i < |hold| {
      BookAfterTopUp(hold, capacity, i, quantity, price);
    } else {
      BookAfterFirst(hold, CargoItem(cargoType, quantity, price));
    }
  }

  lemma BookAfterFirst(hold: seq<CargoItem>, c: CargoItem)
    requires Find(hold, c.cargoType) == |hold| && c.quantity >= 1
    requires forall a, b | 0 <= a < b < |hold| :: hold[a].cargoType != hold[b].cargoType
    ensures Averaged(BookValue(hold, c.cargoType), c.purchasePrice * c.quantity,
                     BookValue(hold + [c], c.cargoType), Amount(hold + [c], c.cargoType))
  {
    hide Find;
    FoundAt(hold + [c], |hold|);
    assert BookValue(hold + [c], c.cargoType) == c.quantity * c.purchasePrice == c.purchasePrice * c.quantity;
    assert BookValue(hold, c.cargoType) == 0;
    hide BookValue;
  }

  lemma BookAfterTopUp(hold: seq<CargoItem>, capacity: nat, i: nat, quantity: nat, price: int)
    requires Sound(hold, capacity) && i < |hold| && CargoUsed(hold) + quantity <= capacity
    requires Find(hold, hold[i].cargoType) == i
    ensures var r, t := AddCargo(hold, capacity, hold[i].cargoType, quantity, price), hold[i].cargoType;
            r.Added? && Averaged(BookValue(hold, t), price * quantity, BookValue(r.hold, t), Amount(r.hold, t))
  {
    hide TruncatedDiv, Find, CargoUsed;
    var t, q := hold[i].cargoType, hold[i].quantity + quantity;
    var r := AddCargo(hold, capacity, t, quantity, price);
    assert forall k | 0 <= k < |hold| :: r.hold[k].cargoType == hold[k].cargoType;
    FoundAt(r.hold, i);
    var total := hold[i].purchasePrice * hold[i].quantity + price * quantity;
    var average := TruncatedDiv(total, q);
    assert BookValue(hold, t) == hold[i].purchasePrice * hold[i].quantity;
    assert BookValue(r.hold, t) == average * q;
    assert Amount(r.hold, t) == q;
    DivisionBounds(total, q);
    hide BookValue, Amount, AddCargo;
  }

  lemma {:induction false} WithoutOne(hold: seq<CargoItem>, i: nat, t: CargoType)
    requires i < |hold| && hold[i].cargoType == t
    requires forall a | 0 <= a < |hold| && a != i :: hold[a].cargoType != t
    ensures Without(hold, t) == hold[..i] + hold[i + 1..]
    decreases |hold|
  {
    var n := |hold| - 1;
    var init := hold[..n];
    if i < n {
      WithoutOne(init, i, t);
      assert hold[..i] + hold[i + 1..] == init[..i] + init[i + 1..] + [hold[n]];
    } else {
      NothingToDrop(init, t);
      assert hold[..i] + hold[i + 1..] == init;
    }
  }

  lemma {:induction false} NothingToDrop(hold: seq<CargoItem>, t: CargoType)
    requires forall a | 0 <= a < |hold| :: hold[a].cargoType != t
    ensures Without(hold, t) == hold
    decreases |hold|
  {
    if hold != [] {
      NothingToDrop(hold[..|hold| - 1], t);
    }
  }

  lemma {:induction false} UsedAfterDrop(hold: seq<CargoItem>, i: nat)
    requires i < |hold|
    ensures CargoUsed(hold[..i] + hold[i + 1..]) == CargoUsed(hold) - hold[i].quantity
    decreases |hold|
  {
    var n := |hold| - 1;
    var rest := hold[..i] + hold[i + 1..];
    if i < n {
      UsedAfterDrop(hold[..n], i);
      assert rest[..|rest| - 1] == hold[..n][..i] + hold[..n][i + 1..];
    } else {
      assert rest == hold[..n];
    }
  }

  /** Removing succeeds exactly when the type is held and there is enough of it. It changes the item of that
      type only, and drops it when nothing is left. */
  lemma RemoveKeepsLoose(hold: seq<CargoItem>, capacity: nat, cargoType: CargoType, quantity: nat)
    requires Loose(hold, capacity)
    ensures var (r, held) := (RemoveCargo(hold, cargoType, quantity), Held(hold, cargoType));
            if held.None? || held.value < quantity then r == None
            else
              && r.Some? && Loose(r.value, capacity)
              && CargoUsed(r.value) == CargoUsed(hold) - quantity
              && forall t: CargoType :: Held(r.value, t) ==
                   if t != cargoType then Held(hold, t) else if held.value == quantity then None else Some(held.value - quantity)
  {
    hide Find, CargoUsed, Without;
    var r := RemoveCargo(hold, cargoType, quantity);
    var i := Find(hold, cargoType);
    if r.Some? {
      var less := hold[i := hold[i].(quantity := hold[i].quantity - quantity)];
      UsedAfterUpdate(hold, i, less[i]);
      if hold[i].quantity == quantity {
        WithoutOne(less, i, less[i].cargoType);
        UsedAfterDrop(less, i);
      }
      forall t: CargoType ensures Held(r.value, t) ==
        if t != cargoType then Held(hold, t) else if hold[i].quantity == quantity then None else Some(hold[i].quantity - quantity)
      {
        HeldAfterRemove(hold, i, quantity, r.value, t);
      }
    }
  }

  lemma HeldAfterRemove(hold: seq<CargoItem>, i: nat, quantity: nat, after: seq<CargoItem>, t: CargoType)
    requires i < |hold| && quantity <= hold[i].quantity
    requires forall a, b | 0 <= a < b < |hold| :: hold[a].cargoType != hold[b].cargoType
    requires after == if hold[i].quantity == quantity then hold[..i] + hold[i + 1..]
                      else hold[i := hold[i].(quantity := hold[i].quantity - quantity)]
    ensures Held(after, t) == if t != hold[i].cargoType then Held(hold, t)
                              else if hold[i].quantity == quantity then None else Some(hold[i].quantity - quantity)
  {
    hide Find;
    var f := Find(hold, t);
    if f < |hold| {
      FoundAt(hold, i);
      if f != i {
        var k := if hold[i].quantity == quantity && f > i then f - 1 else f;
        assert after[k] == hold[f];
        FoundAt(after, k);
      } else if hold[i].quantity != quantity {
        FoundAt(after, i);
      } else {
        assert forall k | 0 <= k < |after| :: after[k].cargoType != t;
      }
    } else {
      assert forall k | 0 <= k < |after| :: after[k].cargoType != t;
    }
  }

  /** Removing from a sound hold succeeds exactly when there is something, and enough, of the type. */
  lemma RemoveKeepsSound(hold: seq<CargoItem>, capacity: nat, cargoType: CargoType, quantity: nat)
    requires Sound(hold, capacity)
    ensures var r := RemoveCargo(hold, cargoType, quantity);
            if Amount(hold, cargoType) == 0 || Amount(hold, cargoType) < quantity then r == None
            else
              && r.Some? && Sound(r.value, capacity)
              && CargoUsed(r.value) == CargoUsed(hold) - quantity
              && forall t: CargoType :: Amount(r.value, t) == Amount(hold, t) - if t == cargoType then quantity else 0
  {
    var r := RemoveCargo(hold, cargoType, quantity);
    RemoveKeepsLoose(hold, capacity, cargoType, quantity);
    SoundHoldsNothingEmpty(hold, capacity);
    AmountIsHeld(hold, cargoType);
    hide RemoveCargo, Held, Amount, Sound, Loose, CargoUsed;
    if r.Some? {
      SoundHoldsNothingEmpty(r.value, capacity);
      forall t: CargoType ensures Amount(r.value, t) == Amount(hold, t) - if t == cargoType then quantity else 0 {
        AmountIsHeld(hold, t);
        AmountIsHeld(r.value, t);
      }
    }
  }

  // ---------- every sequence of loads and unloads ----------

  datatype Op = Load(cargoType: CargoType, quantity: nat, price: int) | Unload(cargoType: CargoType, quantity: nat)

  /** The lowest and highest price paid for each type since it was last absent. */
  type Ledger = map<CargoType, (int, int)>

  function Apply(hold: seq<CargoItem>, capacity: nat, op: Op): seq<CargoItem> {
    match op
    case Load(t, q, price) => (match AddCargo(hold, capacity, t, q, price) case Added(h) => h case _ => hold)
    case Unload(t, q) => RemoveCargo(hold, t, q).GetOr(hold)
  }

  function Record(ledger: Ledger, hold: seq<CargoItem>, capacity: nat, op: Op): Ledger {
    match op
    case Load(t, q, price) =>
      if !AddCargo(hold, capacity, t, q, price).Added? then ledger
      else if t !in ledger || Amount(hold, t) == 0 then ledger[t := (price, price)]
      else ledger[t := (if price < ledger[t].0 then price else ledger[t].0, if price > ledger[t].1 then price else ledger[t].1)]
    case Unload(_, _) => ledger
  }

  function Run(hold: seq<CargoItem>, ledger: Ledger, capacity: nat, ops: seq<Op>): (seq<CargoItem>, Ledger)
    decreases |ops|
  {
    if ops == [] then (hold, ledger)
    else Run(Apply(hold, capacity, ops[0]), Record(ledger, hold, capacity, ops[0]), capacity, ops[1..])
  }

  ghost predicate Priced(hold: seq<CargoItem>, ledger: Ledger) {
    forall i | 0 <= i < |hold| ::
      hold[i].cargoType in ledger && ledger[hold[i].cargoType].0 <= hold[i].purchasePrice <= ledger[hold[i].cargoType].1
  }

  lemma AverageBetween(a: int, n: nat, b: int, m: nat, lo: int, hi: int)
    requires n + m > 0 && lo <= a <= hi && lo <= b <= hi
    ensures lo <= TruncatedDiv(a * n + b * m, n + m) <= hi
  {
    var s, q := a * n + b * m, n + m;
    assert lo * q <= s <= hi * q by {
      TimesMonotone(lo, a, n);
      TimesMonotone(a, hi, n);
      TimesMonotone(lo, b, m);
      TimesMonotone(b, hi, m);
      assert lo * q == lo * n + lo * m && hi * q == hi * n + hi * m;
    }
    QuotientBetween(s, q, lo, hi);
  }

  lemma QuotientBetween(s: int, q: nat, lo: int, hi: int)
    requires q > 0 && lo * q <= s <= hi * q
    ensures lo <= TruncatedDiv(s, q) <= hi
  {
    DivisionBounds(s, q);
    var d := TruncatedDiv(s, q);
    hide TruncatedDiv;
    assert (d + 1) * q == d * q + q && (hi + 1) * q == hi * q + q;
    if d < lo {
      TimesMonotone(d + 1, lo, q);
    }
    if d > hi {
      TimesMonotone(hi + 1, d, q);
    }
  }

  lemma TimesMonotone(a: int, b: int, q: nat)
    requires a <= b
    ensures a * q <= b * q
  {
    assert (b - a) * q >= 0;
  }

  lemma ApplyKeepsPriced(hold: seq<CargoItem>, ledger: Ledger, capacity: nat, op: Op)
    requires Loose(hold, capacity) && Priced(hold, ledger)
    ensures Loose(Apply(hold, capacity, op), capacity)
    ensures Sound(hold, capacity) && (op.Load? ==> op.quantity >= 1) ==> Sound(Apply(hold, capacity, op), capacity)
    ensures Priced(Apply(hold, capacity, op), Record(ledger, hold, capacity, op))
  {
    match op
    case Load(t, q, price) =>
      AddKeepsLoose(hold, capacity, t, q, price);
      LoadKeepsPriced(hold, ledger, capacity, t, q, price);
      hide AddCargo, Loose, Sound, Held;
      if Sound(hold, capacity) && q >= 1 {
        AddKeepsSound(hold, capacity, t, q, price);
      }
    case Unload(t, q) =>
      RemoveKeepsLoose(hold, capacity, t, q);
      UnloadKeepsPriced(hold, ledger, t, q);
      hide RemoveCargo, Loose, Sound, Held;
      if Sound(hold, capacity) {
        RemoveKeepsSound(hold, capacity, t, q);
      }
  }

  lemma LoadKeepsPriced(hold: seq<CargoItem>, ledger: Ledger, capacity: nat, t: CargoType, q: nat, price: int)
    requires Loose(hold, capacity) && Priced(hold, ledger)
    ensures Priced(Apply(hold, capacity, Load(t, q, price)), Record(ledger, hold, capacity, Load(t, q, price)))
  {
    var i := Find(hold, t);
    assert forall j | 0 <= j < |hold| && j != i :: hold[j].cargoType != t;
    if i < |hold| && AddCargo(hold, capacity, t, q, price).Added? {
      var (lo, hi) := Record(ledger, hold, capacity, Load(t, q, price))[t];
      var before := if hold[i].quantity == 0 then price else hold[i].purchasePrice;
      assert before * hold[i].quantity == hold[i].purchasePrice * hold[i].quantity;
      AverageBetween(before, hold[i].quantity, price, q, lo, hi);
    }
    hide TruncatedDiv, CargoUsed;
  }

  lemma UnloadKeepsPriced(hold: seq<CargoItem>, ledger: Ledger, t: CargoType, q: nat)
    requires (forall a, b | 0 <= a < b < |hold| :: hold[a].cargoType != hold[b].cargoType) && Priced(hold, ledger)
    ensures Priced(RemoveCargo(hold, t, q).GetOr(hold), ledger)
  {
    var i := Find(hold, t);
    if i < |hold| && hold[i].quantity == q {
      var less := hold[i := hold[i].(quantity := 0)];
      WithoutOne(less, i, less[i].cargoType);
    }
  }

  /** Whatever is loaded and unloaded, loads of nothing included, types stay unique, the capacity is
      respected, and every price lies between the lowest and highest price paid since that type was last
      absent. No item is empty as long as every load is of something. */
  lemma {:induction false} RunKeepsPriced(hold: seq<CargoItem>, ledger: Ledger, capacity: nat, ops: seq<Op>)
    requires Loose(hold, capacity) && Priced(hold, ledger)
    ensures var (h, l) := Run(hold, ledger, capacity, ops);
            && Loose(h, capacity) && Priced(h, l)
            && (Sound(hold, capacity) && (forall op | op in ops && op.Load? :: op.quantity >= 1) ==> Sound(h, capacity))
    decreases |ops|
  {
    hide Loose, Sound, Priced, Apply, Record;
    if ops != [] {
      ApplyKeepsPriced(hold, ledger, capacity, ops[0]);
      RunKeepsPriced(Apply(hold, capacity, ops[0]), Record(ledger, hold, capacity, ops[0]), capacity, ops[1..]);
    }
  }

  /** Loading nothing is what the hold does not survive: it leaves an item of quantity zero exactly when
      the type is absent, and loading nothing again divides by zero. */
  lemma LoadingNothing(hold: seq<CargoItem>, capacity: nat, cargoType: CargoType, price: int, again: int)
    requires Sound(hold, capacity)
    ensures var r := AddCargo(hold, capacity, cargoType, 0, price);
            && r.Added?
            && (Sound(r.hold, capacity) <==> Amount(hold, cargoType) > 0)
            && (Amount(hold, cargoType) == 0 <==> AddCargo(r.hold, capacity, cargoType, 0, again) == DivisionByZero)
  {
    var r := AddCargo(hold, capacity, cargoType, 0, price);
    var i := Find(hold, cargoType);
    if i == |hold| {
      assert r.hold[..|hold|] == hold;
      assert Find(r.hold, cargoType) == |hold|;
    } else {
      UsedAfterUpdate(hold, i, r.hold[i]);
      assert forall k | 0 <= k < |hold| :: r.hold[k].cargoType == hold[k].cargoType;
      FoundAt(r.hold, i);
    }
  }

  // ---------- in place ----------

  datatype AddResult = Loaded | Full | Panicked

  class Hold {
    const shipClass: ShipClass
    var cargo: seq<CargoItem>

    constructor (shipClass: ShipClass)
      ensures this.shipClass == shipClass && cargo == []
    {
      this.shipClass := shipClass;
      cargo := [];
    }

    method Used() returns (sum: nat)
      ensures sum == CargoUsed(cargo)
    {
      sum := 0;
      for i := 0 to |cargo|
        invariant sum == CargoUsed(cargo[..i])
      {
        sum := sum + cargo[i].quantity;
        assert cargo[..i + 1][..i] == cargo[..i];
      }
      assert cargo[..|cargo|] == cargo;
    }

    method IndexOf(cargoType: CargoType) returns (i: nat)
      ensures i == Find(cargo, cargoType)
    {
      i := 0;
      while i < |cargo| && cargo[i].cargoType != cargoType
        invariant i <= |cargo| && forall j | 0 <= j < i :: cargo[j].cargoType != cargoType
      {
        i := i + 1;
      }
      var f := Find(cargo, cargoType);
      assert i == f;
    }

    /** A panic leaves the hold as it was: nothing was added to the empty item. */
    method Add(cargoType: CargoType, quantity: nat, price: int) returns (r: AddResult)
      modifies this`cargo
      ensures match AddCargo(old(cargo), Stats(shipClass).cargoCapacity, cargoType, quantity, price)
              case Added(hold) => r == Loaded && cargo == hold
              case NoRoom => r == Full && cargo == old(cargo)
              case DivisionByZero => r == Panicked && cargo == old(cargo)
    {
      var used := Used();
      if used + quantity > Stats(shipClass).cargoCapacity {
        return Full;
      }
      var i := IndexOf(cargoType);
      if i < |cargo| {
        var existing := cargo[i];
        var total := existing.purchasePrice * existing.quantity + price * quantity;
        existing := existing.(quantity := existing.quantity + quantity);
        cargo := cargo[i := existing];
        if existing.quantity == 0 {
          assert cargo == old(cargo);
          return Panicked;
        }
        existing := existing.(purchasePrice := TruncatedDiv(total, existing.quantity));
        cargo := cargo[i := existing];
      } else {
        cargo := cargo + [CargoItem(cargoType, quantity, price)];
      }
      r := Loaded;
    }

    /** False when there is not enough. */
    method Remove(cargoType: CargoType, quantity: nat) returns (ok: bool)
      modifies this`cargo
      ensures match RemoveCargo(old(cargo), cargoType, quantity)
              case Some(hold) => ok && cargo == hold
              case None => !ok && cargo == old(cargo)
    {
      var i := IndexOf(cargoType);
      if i == |cargo| || cargo[i].quantity < quantity {
        return false;
      }
      cargo := cargo[i := cargo[i].(quantity := cargo[i].quantity - quantity)];
      if cargo[i].quantity == 0 {
        Retain(cargoType);
      }
      ok := true;
    }

    /** Drops every item of a type. */
    method Retain(cargoType: CargoType)
      modifies this`cargo
      ensures cargo == Without(old(cargo), cargoType)
    {
      var kept := [];
      for i := 0 to |cargo|
        invariant cargo == old(cargo) && kept == Without(cargo[..i], cargoType)
      {
        if cargo[i].cargoType != cargoType {
          kept := kept + [cargo[i]];
        }
        assert cargo[..i + 1][..i] == cargo[..i];
      }
      assert cargo[..|cargo|] == cargo;
      cargo := kept;
    }
  }
}
