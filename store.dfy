/** The expense store the tool loads once at start-up and then changes in place: the
    record list and the id counter, with the `add` and `delete` commands. */
module Store {
  import opened Wrappers
  import opened JsText
  import opened Expenses
  import opened Reports

  datatype DeleteOutcome = Deleted(expense: Expense) | NotFound

  class ExpenseStore {
    var records: seq<Expense>
    var nextId: int

    /** The store's invariant: the counter is above every stored id, so `add` never
        hands out an id already in use. */
    ghost predicate Valid()
      reads this
    {
      IdsBelow(records, nextId)
    }

    /** The start-up load: the parsed records, with the counter one past the largest
        id; no file or an unparsable file leaves the list empty and the counter at 1. */
    constructor Load(input: LoadInput)
      ensures Valid()
      ensures input.Parsed? ==> records == input.items && nextId == NextIdAfterLoad(input.items)
      ensures !input.Parsed? ==> records == [] && nextId == 1
    {
      nextId := 1;
      records := [];
      if input.Parsed? {
        var items := input.items;
        records := items;
        if |items| > 0 {
          nextId := MaxId(items) + 1;
        }
      }
    }

    /** `add`: a record with the current counter as its id, appended at the end; the
        counter moves on by one. */
    method Add(date: string, description: string, amount: int) returns (e: Expense)
      requires Valid()
      modifies this
      ensures Valid()
      ensures e == Expense(old(nextId), date, description, amount)
      ensures !HasId(old(records), e.id)
      ensures records == old(records) + [e]
      ensures nextId == old(nextId) + 1
      ensures old(IdsDistinct(records)) ==> IdsDistinct(records)
      ensures old(IdsIncreasing(records)) ==> IdsIncreasing(records)
    {
      e := Expense(nextId, date, description, amount);
      AppendAtBoundKeepsIds(records, e, nextId);
      nextId := nextId + 1;
      records := records + [e];
    }

    /** `delete <id>`: the first record with the id is spliced out and returned, the
        others keep their order and the counter stays, so the id is not handed out
        again; an id no record has changes nothing. */
    method Delete(id: int) returns (outcome: DeleteOutcome)
      requires Valid()
      modifies this
      ensures Valid()
      ensures nextId == old(nextId)
      ensures outcome.NotFound? <==> !HasId(old(records), id)
      ensures outcome.NotFound? ==> records == old(records)
      ensures outcome.Deleted? ==>
                var k := FindIndex(old(records), id);
                0 <= k && outcome.expense == old(records)[k] && outcome.expense.id == id
                && records == RemoveAt(old(records), k)
      ensures outcome.Deleted? && old(IdsDistinct(records)) ==> IdsDistinct(records) && !HasId(records, id)
      ensures old(IdsIncreasing(records)) ==> IdsIncreasing(records)
    {
      var k := FindIndex(records, id);
      if k == -1 {
        return NotFound;
      }
      outcome := Deleted(records[k]);
      RemoveAtKeepsIds(records, k, nextId);
      records := RemoveAt(records, k);
    }

    /** `delete <id>` as typed: the argument goes through `parseInt`, and text that is
        not a number (`NaN`) matches no record. */
    method DeleteByText(idText: string) returns (outcome: DeleteOutcome)
      requires Valid()
      modifies this
      ensures Valid()
      ensures nextId == old(nextId)
      ensures ParseInt(idText).None? ==> outcome.NotFound?
      ensures ParseInt(idText).Some? ==> (outcome.NotFound? <==> !HasId(old(records), ParseInt(idText).value))
      ensures outcome.NotFound? ==> records == old(records)
      ensures outcome.Deleted? ==>
                var k := FindIndex(old(records), outcome.expense.id);
                ParseInt(idText) == Some(outcome.expense.id) && 0 <= k
                && outcome.expense == old(records)[k] && records == RemoveAt(old(records), k)
    {
      var id := ParseInt(idText);
      if id.None? {
        return NotFound;
      }
      outcome := Delete(id.value);
    }
  }

  /** A session that starts without a file, adds two expenses, lists them, deletes the
      first, sums the rest and adds a third: ids are handed out from 1 and the deleted
      one is not reused. */
  method Session()
  {
    var store := new ExpenseStore.Load(NoFile);
    var coffee := store.Add("2024-05-01", "Coffee", 350);
    var rent := store.Add("2024-05-02", "Rent", 120000);
    assert coffee.id == 1 && rent.id == 2;
    assert store.records == [coffee, rent];
    assert List(store.records) == Listing([coffee, rent]);
    assert FindIndex(store.records, 1) == 0;
    var gone := store.Delete(1);
    assert gone == Deleted(coffee);
    assert store.records == [rent];
    assert Total([rent]) == rent.amount + Total([]) by { assert [rent][1..] == []; }
    assert Summary(store.records, None) == Summed(120000, 1, None);
    var lunch := store.Add("2024-05-03", "Lunch", 1200);
    assert lunch.id == 3;
  }
}
