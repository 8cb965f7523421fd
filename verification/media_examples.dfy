/** The cases of test/mediaHandler.test.js, stated on the model. */
module MediaExamples {
  import opened Wrappers
  import opened JsString
  import opened JsNumber
  import opened JsValue
  import IntentParser
  import opened MediaHandler

  const TestPhone: Phone := "2348012345678@c.us"

  /** The pending transaction every case starts from. */
  const BasePending: Payload := map[
    "type" := Str("expense"), "amount" := Num(Finite(4500.0)), "currency" := Str("NGN"),
    "merchant" := Str("Shoprite"), "category" := Str("shopping"), "date" := Str("2026-02-27"),
    "description" := Str("Groceries"), "confidence" := Str("high")]

  /** Editing the category stores the new text and nothing else. */
  lemma CategoryEdit()
    ensures ApplyEdit(BasePending, "category", "food") == Ok(BasePending["category" := Str("food")])
  {
    assert "category" in BasePending;
  }

  /** "abc" is refused as an amount. */
  lemma BadAmountEdit()
    ensures ApplyEdit(BasePending, "amount", "abc") == Err(AmountEditMessage)
  {
    assert "amount" in BasePending;
    StripCommasNone("abc");
    LetterIsNaN("abc");
  }

  /** "6,000" is stored as 6000. */
  lemma GoodAmountEdit()
    ensures ApplyEdit(BasePending, "amount", "6,000")
         == Ok(BasePending["amount" := Num(Finite(6000.0))])
  {
    assert "amount" in BasePending;
    SixThousand();
  }

  lemma SixThousand()
    ensures IntentParser.ToAmount("6,000") == Finite(6000.0)
  {
    assert StripCommas("6,000") == "6000";
    DigitsNumber("6000");
    SixThousandDigits();
  }

  lemma SixThousandDigits()
    ensures DigitsValue("6000") == 6000
  {
    assert "6000"[..3] == "600";
    assert "600"[..2] == "60";
    assert "60"[..1] == "6";
    assert "6"[..0] == "";
  }

  /** A key the object does not have is an unknown field. */
  lemma UnknownFieldEdit()
    ensures ApplyEdit(BasePending, "foo", "bar") == Err("Unknown field: foo")
  {
    assert "foo" !in BasePending;
  }

  /** Storing, reading back, rendering and clearing a pending transaction. */
  method StoreReadAndClear() returns (read: Option<Payload>, card: Option<Card>, cleared: Option<Card>)
    ensures read == Some(BasePending)
    ensures card.Some? && card.value.category == Str("shopping")
    ensures cleared == None
  {
    var store := new PendingStore();
    store.SetPendingForTest(TestPhone, BasePending);
    read := store.GetPending(TestPhone);
    card := store.BuildPendingCard(TestPhone);
    store.ClearPendingFor(TestPhone);
    cleared := store.BuildPendingCard(TestPhone);
  }

  /** An edit is visible through `getPending` afterwards. */
  method EditThenRead() returns (edited: Option<Result<Payload>>, read: Option<Payload>)
    ensures edited == Some(Ok(BasePending["category" := Str("food")]))
    ensures read == Some(BasePending["category" := Str("food")])
  {
    var store := new PendingStore();
    store.SetPendingForTest(TestPhone, BasePending);
    CategoryEdit();
    edited := store.UpdatePendingField(TestPhone, "category", "food");
    read := store.GetPending(TestPhone);
  }
}
