/** The player's finances (Assets/Scripts/Simulation/FinanceController.cs):
    the money, the hourly earnings and expenses with the items they are
    summed from, and the taxes item that citizens pay into. C#'s `decimal`
    is a `real` here; its rounding to 28 significant digits is not
    modelled. */
module FinanceControllers {
  /** An `Earning` or an `Expense`: a description key and an amount. */
  datatype Item = Item(descriptionKey: string, amount: real)

  const TaxesKey := "ui:finances:taxes"

  const MaxMoney: real := 999999999.0
  const MaxIncome: real := 999999999.0

  /** The sum of the items' amounts. */
  function Total(items: seq<Item>): real
  {
    if items == [] then 0.0 else Total(items[..|items| - 1]) + items[|items| - 1].amount
  }

  /** Adding an item raises the total by its amount. */
  lemma TotalAppend(items: seq<Item>, item: Item)
    ensures Total(items + [item]) == Total(items) + item.amount
  {
    assert (items + [item])[..|items|] == items;
  }

  /** Changing the amount of one item changes the total by the difference. */
  lemma {:induction false} TotalUpdate(items: seq<Item>, k: nat, amount: real)
    requires k < |items|
    ensures Total(items[k := items[k].(amount := amount)]) == Total(items) - items[k].amount + amount
  {
    var n := |items| - 1;
    var u := items[k := items[k].(amount := amount)];
    if k == n {
      assert u[..n] == items[..n];
    } else {
      TotalUpdate(items[..n], k, amount);
      assert u[..n] == items[..n][k := items[k].(amount := amount)];
    }
  }

  function Min(a: real, b: real): (r: real)
    ensures r <= a && r <= b && (r == a || r == b)
  {
    if a <= b then a else b
  }

  /** The money after one update: the hourly income spread over an hour's
      60 ticks is added, and the result capped at `MaxMoney`. */
  function AfterTick(money: real, earnings: real, expenses: real): real
  {
    Min(money + (earnings - expenses) / 60.0, MaxMoney)
  }

  /** An update never leaves more than `MaxMoney`, adds exactly one tick's
      income when that stays under the cap, and with no income leaves the
      money alone up to the cap. */
  lemma AfterTickBounds(money: real, earnings: real, expenses: real)
    ensures AfterTick(money, earnings, expenses) <= MaxMoney
    ensures money + (earnings - expenses) / 60.0 <= MaxMoney ==>
      AfterTick(money, earnings, expenses) == money + (earnings - expenses) / 60.0
    ensures earnings == expenses ==> AfterTick(money, earnings, expenses) == Min(money, MaxMoney)
    ensures 60.0 * (AfterTick(money, earnings, expenses) - money) <= earnings - expenses
  {
  }

  /** The money after `n` updates at fixed earnings and expenses. */
  function Ticks(n: nat, money: real, earnings: real, expenses: real): real
  {
    if n == 0 then money else AfterTick(Ticks(n - 1, money, earnings, expenses), earnings, expenses)
  }

  /** While the cap is not reached, `n` updates add `n` times one tick's
      income `d`, a sixtieth of the hourly income. */
  lemma {:induction false} TicksAddIncome(n: nat, money: real, earnings: real, expenses: real, d: real)
    requires d == (earnings - expenses) / 60.0
    requires money <= MaxMoney && money + (n as real) * d <= MaxMoney
    ensures Ticks(n, money, earnings, expenses) == money + (n as real) * d
  {
    if n > 0 {
      var m := (n - 1) as real;
      assert m * d + d == (n as real) * d;
      assert money + m * d <= MaxMoney by {
        if d >= 0.0 {
          assert m * d <= m * d + d;
        } else {
          assert m * d <= 0.0;
        }
      }
      TicksAddIncome(n - 1, money, earnings, expenses, d);
    }
  }

  /** An hour of updates below the cap adds the hourly income. */
  lemma HourOfTicks(money: real, earnings: real, expenses: real)
    requires money <= MaxMoney && money + (earnings - expenses) <= MaxMoney
    ensures Ticks(60, money, earnings, expenses) == money + (earnings - expenses)
  {
    TicksAddIncome(60, money, earnings, expenses, (earnings - expenses) / 60.0);
  }

  class FinanceController {
    var money: real
    /** The current hourly earnings and expenses, as last summed. */
    var earnings: real
    var expenses: real
    var earningItems: seq<Item>
    var expenseItems: seq<Item>

    /** The taxes item is the first earning item, the one `taxes` refers
        to. */
    ghost predicate Valid()
      reads this
    {
      |earningItems| >= 1 && earningItems[0].descriptionKey == TaxesKey
    }

    /** `taxes`. */
    function Taxes(): Item
      reads this
      requires Valid()
    {
      earningItems[0]
    }

    function Income(): (r: real)
      reads this
      ensures r + expenses == earnings
    {
      earnings - expenses
    }

    function IncomePerTick(): (r: real)
      reads this
      ensures 60.0 * r == Income()
    {
      Income() / 60.0
    }

    /** `Awake`: no items but the taxes item, at zero. */
    constructor ()
      ensures earningItems == [Item(TaxesKey, 0.0)] && expenseItems == []
      ensures money == 0.0 && earnings == 0.0 && expenses == 0.0
      ensures Valid() && Taxes().amount == 0.0
    {
      money, earnings, expenses := 0.0, 0.0, 0.0;
      earningItems := [Item(TaxesKey, 0.0)];
      expenseItems := [];
    }

    method Earn(amount: real)
      modifies this
      ensures money == old(money) + amount
      ensures earnings == old(earnings) && expenses == old(expenses)
      ensures earningItems == old(earningItems) && expenseItems == old(expenseItems)
    {
      money := money + amount;
    }

    /** The price is taken whatever the funds; `funded` says whether the
        debug assertion that the money exceeds the price held. */
    method Purchase(price: real) returns (funded: bool)
      modifies this
      ensures funded <==> old(money) > price
      ensures money == old(money) - price
      ensures earnings == old(earnings) && expenses == old(expenses)
      ensures earningItems == old(earningItems) && expenseItems == old(expenseItems)
    {
      funded := money > price;
      money := money - price;
    }

    method AddEarning(descriptionKey: string, amount: real)
      modifies this
      ensures earningItems == old(earningItems) + [Item(descriptionKey, amount)]
      ensures money == old(money) && earnings == old(earnings) && expenses == old(expenses)
      ensures expenseItems == old(expenseItems)
      ensures old(Valid()) ==> Valid() && Taxes() == old(Taxes())
    {
      earningItems := earningItems + [Item(descriptionKey, amount)];
    }

    method AddExpense(descriptionKey: string, amount: real)
      modifies this
      ensures expenseItems == old(expenseItems) + [Item(descriptionKey, amount)]
      ensures money == old(money) && earnings == old(earnings) && expenses == old(expenses)
      ensures earningItems == old(earningItems)
    {
      expenseItems := expenseItems + [Item(descriptionKey, amount)];
    }

    /** `taxes.amount += amount`, as a citizen pays its taxes. */
    method PayTaxes(amount: real)
      requires Valid()
      modifies this
      ensures earningItems == old(earningItems)[0 := old(Taxes()).(amount := old(Taxes()).amount + amount)]
      ensures money == old(money) && earnings == old(earnings) && expenses == old(expenses)
      ensures expenseItems == old(expenseItems)
      ensures Valid() && Total(earningItems) == old(Total(earningItems)) + amount
    {
      TotalUpdate(earningItems, 0, earningItems[0].amount + amount);
      earningItems := earningItems[0 := earningItems[0].(amount := earningItems[0].amount + amount)];
    }

    method UpdateEarnings()
      modifies this
      ensures earnings == Total(earningItems)
      ensures money == old(money) && expenses == old(expenses)
      ensures earningItems == old(earningItems) && expenseItems == old(expenseItems)
    {
      earnings := 0.0;
      for k := 0 to |earningItems|
        invariant earningItems == old(earningItems) && expenseItems == old(expenseItems)
        invariant earnings == Total(earningItems[..k])
        invariant money == old(money) && expenses == old(expenses)
      {
        assert earningItems[..k + 1][..k] == earningItems[..k];
        earnings := earnings + earningItems[k].amount;
      }
      assert earningItems[..|earningItems|] == earningItems;
    }

    method UpdateExpenses()
      modifies this
      ensures expenses == Total(expenseItems)
      ensures money == old(money) && earnings == old(earnings)
      ensures earningItems == old(earningItems) && expenseItems == old(expenseItems)
    {
      expenses := 0.0;
      for k := 0 to |expenseItems|
        invariant earningItems == old(earningItems) && expenseItems == old(expenseItems)
        invariant expenses == Total(expenseItems[..k])
        invariant money == old(money) && earnings == old(earnings)
      {
        assert expenseItems[..k + 1][..k] == expenseItems[..k];
        expenses := expenses + expenseItems[k].amount;
      }
      assert expenseItems[..|expenseItems|] == expenseItems;
    }

    /** The totals are summed afresh and one tick's income is added to the
        money, capped at `MaxMoney`. */
    method UpdateFinances()
      modifies this
      ensures earnings == Total(earningItems) && expenses == Total(expenseItems)
      ensures money == AfterTick(old(money), earnings, expenses)
      ensures earningItems == old(earningItems) && expenseItems == old(expenseItems)
    {
      UpdateEarnings();
      UpdateExpenses();
      money := Min(money + IncomePerTick(), MaxMoney);
    }

    /** The `Money` setter: the new value, then an update. */
    method SetMoney(value: real)
      modifies this
      ensures earnings == Total(earningItems) && expenses == Total(expenseItems)
      ensures money == AfterTick(value, earnings, expenses)
      ensures earningItems == old(earningItems) && expenseItems == old(expenseItems)
    {
      money := value;
      UpdateFinances();
    }
  }

  /** What a citizen's taxes are worth to the player: after paying them
      and updating, the earnings are higher by exactly that amount. */
  lemma TaxesRaiseEarnings(items: seq<Item>, amount: real)
    requires |items| >= 1
    ensures Total(items[0 := items[0].(amount := items[0].amount + amount)]) == Total(items) + amount
  {
    TotalUpdate(items, 0, items[0].amount + amount);
  }
}
