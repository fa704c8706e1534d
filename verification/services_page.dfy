/** The services page's price editor: which row is being edited, the text typed for its new
    price, and how that text is cleaned and checked before the price update is requested. */
module ServicesPage {
  import opened Wrappers
  import Seqs
  import Text

  /** A priced service, as listed. */
  datatype Service = Service(id: string, name: string, price: int)

  /** The row being edited, if any, and the text in its price box. */
  datatype EditState = EditState(editingId: Option<string>, editPrice: string)

  /** `handleEditClick`: edit this row, starting from its current price written out. */
  function HandleEditClick(st: EditState, service: Service): (t: EditState)
    ensures t.editingId == Some(service.id)
    ensures t.editPrice == Text.IntToString(service.price)
    ensures Text.DigitsOf(t.editPrice) == Text.NatToString(if service.price < 0 then -service.price else service.price)
  {
    var t := EditState(Some(service.id), Text.IntToString(service.price));
    DigitsOfPrintedInt(service.price);
    t
  }

  /** The price box changed. */
  function HandlePriceInput(st: EditState, text: string): (t: EditState)
    ensures t.editPrice == text && t.editingId == st.editingId
  {
    st.(editPrice := text)
  }

  /** The cancel button: stop editing; the box's text is left as it was. */
  function CancelEdit(st: EditState): (t: EditState)
    ensures t.editingId == None && t.editPrice == st.editPrice
  {
    st.(editingId := None)
  }

  /** `Number(editPrice.replace(/\D/g, ''))`: the value of the digits of the text, read as one
      decimal number; no digits at all read as 0. */
  function SanitizedPrice(editPrice: string): (n: nat)
    ensures Text.NumberOf(Text.DigitsOf(editPrice)) == Some(n)
  {
    Text.DecimalValue(Text.DigitsOf(editPrice))
  }

  /** Text without any digit, the empty box included, reads as 0. */
  lemma NoDigitsReadAsZero(editPrice: string)
    requires forall c :: c in editPrice ==> !Text.IsDigit(c)
    ensures SanitizedPrice(editPrice) == 0
    ensures PriceToSave(editPrice) == None
  {
    Seqs.FilterNone(editPrice, Text.IsDigit);
  }

  /** The price a save would send: the cleaned value when it is positive; otherwise the save is
      refused before any update is requested. */
  function PriceToSave(editPrice: string): (r: Option<nat>)
    ensures r.Some? <==> SanitizedPrice(editPrice) > 0
    ensures r.Some? ==> r.value == SanitizedPrice(editPrice) && r.value > 0
  {
    var n := SanitizedPrice(editPrice);
    if n > 0 then Some(n) else None
  }

  /** A request to the price service. */
  datatype PriceUpdate = PriceUpdate(serviceId: string, newPrice: nat)

  /** The outcome of a save: the editor afterwards and the update requested, if any. */
  datatype SaveResult = SaveResult(state: EditState, request: Option<PriceUpdate>)

  /** `handleSaveClick`, given whether the price service reported an updated service: a refused
      price requests nothing and changes nothing; an accepted one is sent, and only when the
      service reports success does the editor close and clear. */
  function HandleSaveClick(st: EditState, serviceId: string, updated: bool): (r: SaveResult)
    ensures PriceToSave(st.editPrice).None? ==> r == SaveResult(st, None)
    ensures PriceToSave(st.editPrice).Some? ==>
      r.request == Some(PriceUpdate(serviceId, PriceToSave(st.editPrice).value))
    ensures PriceToSave(st.editPrice).Some? && updated ==> r.state == EditState(None, "")
    ensures !updated ==> r.state == st
    ensures r.request.Some? ==> r.request.value.newPrice > 0
  {
    match PriceToSave(st.editPrice)
    case None => SaveResult(st, None)
    case Some(p) => SaveResult(if updated then EditState(None, "") else st, Some(PriceUpdate(serviceId, p)))
  }

  /** The digits of a printed integer are the digits of its magnitude. */
  lemma DigitsOfPrintedInt(i: int)
    ensures Text.DigitsOf(Text.IntToString(i)) == Text.NatToString(if i < 0 then -i else i)
  {
    var m: nat := if i < 0 then -i else i;
    Text.DigitsOfDigitString(Text.NatToString(m));
    if i < 0 {
      Seqs.FilterAppend("-", Text.NatToString(m), Text.IsDigit);
    }
  }

  /** A printed integer cleans up to its magnitude. */
  lemma PrintedPriceReadsBack(i: int)
    ensures SanitizedPrice(Text.IntToString(i)) == if i < 0 then -i else i
  {
    var m: nat := if i < 0 then -i else i;
    DigitsOfPrintedInt(i);
    assert Text.DecimalValue(Text.NatToString(m)) == m;
  }

  /** A digit string reads as 0 exactly when every digit in it is '0'. */
  lemma {:induction false} ZeroIffAllZeros(s: string)
    requires Text.AllDigits(s)
    ensures Text.DecimalValue(s) == 0 <==> forall i :: 0 <= i < |s| ==> s[i] == '0'
    decreases |s|
  {
    if s != [] {
      var init := s[..|s| - 1];
      assert Text.AllDigits(init);
      ZeroIffAllZeros(init);
      if Text.DecimalValue(s) == 0 {
        assert forall i :: 0 <= i < |init| ==> s[i] == init[i];
      }
    }
  }

  /** A save is refused exactly when the box holds no digit other than '0' (in particular when
      it holds no digit at all). */
  lemma RefusedIffNoNonZeroDigit(editPrice: string)
    ensures PriceToSave(editPrice).None? <==> forall c :: c in Text.DigitsOf(editPrice) ==> c == '0'
  {
    var digits := Text.DigitsOf(editPrice);
    ZeroIffAllZeros(digits);
    if forall c :: c in digits ==> c == '0' {
      assert forall i :: 0 <= i < |digits| ==> digits[i] == '0' by {
        forall i | 0 <= i < |digits| ensures digits[i] == '0' {
          assert digits[i] in digits;
        }
      }
    }
  }

  /** Characters other than digits, such as a currency sign or thousands separators, are
      ignored wherever they are typed. */
  lemma SeparatorsIgnored(a: string, c: char, b: string)
    requires !Text.IsDigit(c)
    ensures SanitizedPrice(a + [c] + b) == SanitizedPrice(a + b)
  {
    var fa, fb := Seqs.Filter(a, Text.IsDigit), Seqs.Filter(b, Text.IsDigit);
    Seqs.FilterNone([c], Text.IsDigit);
    Seqs.FilterAppend(a, [c], Text.IsDigit);
    assert Seqs.Filter(a + [c], Text.IsDigit) == fa;
    Seqs.FilterAppend(a + [c], b, Text.IsDigit);
    assert Seqs.Filter(a + [c] + b, Text.IsDigit) == fa + fb;
    Seqs.FilterAppend(a, b, Text.IsDigit);
    assert Text.DigitsOf(a + [c] + b) == Text.DigitsOf(a + b);
  }

  /** Opening a row for edit and saving without retyping sends the service's own price back
      when that price is positive, and its magnitude when it is negative; a zero price is
      refused. */
  lemma EditThenSaveRoundTrip(st: EditState, service: Service)
    ensures service.price > 0 ==> PriceToSave(HandleEditClick(st, service).editPrice) == Some(service.price)
    ensures service.price < 0 ==> PriceToSave(HandleEditClick(st, service).editPrice) == Some(-service.price)
    ensures service.price == 0 ==> PriceToSave(HandleEditClick(st, service).editPrice) == None
  {
    var magnitude: nat := if service.price < 0 then -service.price else service.price;
    var text := Text.IntToString(service.price);
    assert HandleEditClick(st, service).editPrice == text;
    PrintedPriceReadsBack(service.price);
    assert SanitizedPrice(text) == magnitude;
  }
}
