/**
 * Choosing the invoice code among the symbols the barcode decoder finds on a
 * page. The decoder itself is outside the model: it is represented by the
 * sequence of symbols it reports, in its order, each with its symbology name and
 * its payload already decoded to text.
 */
module BarcodeReader {
  import opened Wrappers
  import opened PyText

  /** A decoded symbol: its symbology name and its payload. */
  datatype Symbol = Symbol(kind: string, data: string)

  /** The linear symbologies whose payload can be an invoice code. */
  const VALID_TYPES: set<string> := {"CODE128", "CODE39", "EAN13", "EAN8", "UPCA", "UPCE"}

  /** The longest payload accepted, after stripping. */
  const MAX_CODE_LENGTH: nat := 40

  /**
   * The checks `read_barcode` makes on one symbol, in its order: a QR code is
   * skipped, then a symbol of another type than the valid ones (compared in
   * upper case), then a payload longer than 40 characters or of several lines
   * once stripped; any other symbol gives its stripped payload.
   */
  function Screen(s: Symbol): (r: Option<string>)
    ensures r.Some? ==> r.value == Strip(s.data)
  {
    var kind := Upper(s.kind);
    var text := Strip(s.data);
    if kind == "QRCODE" then None
    else if kind !in VALID_TYPES then None
    else if |text| > MAX_CODE_LENGTH || '\n' in text then None
    else Some(text)
  }

  /** A symbol `read_barcode` would return: a valid type and a short, single-line payload. */
  predicate Accepted(s: Symbol)
  {
    Upper(s.kind) in VALID_TYPES && |Strip(s.data)| <= MAX_CODE_LENGTH && '\n' !in Strip(s.data)
  }

  /**
   * A symbol passes the checks exactly when it is accepted. `Accepted` has no
   * QR-code test: `QRCODE` is not a valid type, so the separate check only
   * changes what is logged.
   */
  lemma ScreenAccepts(s: Symbol)
    ensures Screen(s).Some? <==> Accepted(s)
  {
    assert "QRCODE" !in VALID_TYPES;
  }

  /** `read_barcode`: the payload of the first symbol, in decoder order, that passes the checks. */
  function ReadBarcode(symbols: seq<Symbol>): (r: Option<string>)
    ensures r.Some? ==> |r.value| <= MAX_CODE_LENGTH && '\n' !in r.value && IsStripped(r.value)
  {
    if symbols == [] then None
    else match Screen(symbols[0])
      case Some(text) => (ScreenAccepts(symbols[0]); Some(text))
      case None => ReadBarcode(symbols[1..])
  }

  /**
   * `read_barcode` returns nothing exactly when no symbol is accepted, and
   * otherwise the stripped payload of the first accepted one, whatever follows.
   */
  lemma {:induction false} ReadBarcodeIsFirstAccepted(symbols: seq<Symbol>)
    ensures ReadBarcode(symbols).None? <==> forall k :: 0 <= k < |symbols| ==> !Accepted(symbols[k])
    ensures ReadBarcode(symbols).Some? ==>
      exists k :: 0 <= k < |symbols| && Accepted(symbols[k]) && ReadBarcode(symbols) == Some(Strip(symbols[k].data))
        && forall j :: 0 <= j < k ==> !Accepted(symbols[j])
  {
    if symbols != [] {
      ScreenAccepts(symbols[0]);
      ReadBarcodeIsFirstAccepted(symbols[1..]);
      if Accepted(symbols[0]) {
        assert ReadBarcode(symbols) == Some(Strip(symbols[0].data));
      } else {
        assert ReadBarcode(symbols) == ReadBarcode(symbols[1..]);
        if ReadBarcode(symbols).Some? {
          var k :| 0 <= k < |symbols[1..]| && Accepted(symbols[1..][k])
            && ReadBarcode(symbols[1..]) == Some(Strip(symbols[1..][k].data))
            && forall j :: 0 <= j < k ==> !Accepted(symbols[1..][j]);
          assert symbols[k + 1] == symbols[1..][k];
          forall j | 0 <= j < k + 1 ensures !Accepted(symbols[j]) {
            if j > 0 {
              assert symbols[j] == symbols[1..][j - 1];
            }
          }
        }
        forall k | 1 <= k < |symbols| ensures symbols[k] == symbols[1..][k - 1] {
        }
      }
    }
  }

  /** Symbols put after an accepted one never change the result. */
  lemma {:induction false} ReadBarcodeIgnoresLater(symbols: seq<Symbol>, later: seq<Symbol>)
    requires ReadBarcode(symbols).Some?
    ensures ReadBarcode(symbols + later) == ReadBarcode(symbols)
  {
    var all := symbols + later;
    assert all[0] == symbols[0] && all[1..] == symbols[1..] + later;
    if Screen(symbols[0]).None? {
      ReadBarcodeIgnoresLater(symbols[1..], later);
    }
  }

  /** The symbology name is compared in upper case: any spelling of a kind is screened like its upper-case form. */
  lemma KindCaseIgnored(kind: string, data: string)
    ensures Screen(Symbol(kind, data)) == Screen(Symbol(Upper(kind), data))
    ensures Accepted(Symbol(kind, data)) <==> Accepted(Symbol(Upper(kind), data))
  {
    UpperIdempotent(kind);
  }

  /** The symbology name is compared in upper case: a decoder that reports `ean13` is read like one that reports `EAN13`. */
  lemma LowerCaseKindAccepted(data: string)
    requires |Strip(data)| <= MAX_CODE_LENGTH && '\n' !in Strip(data)
    ensures ReadBarcode([Symbol("ean13", data)]) == Some(Strip(data))
    ensures ReadBarcode([Symbol("qrcode", data)]).None?
  {
    UpperEan13();
    UpperQrCode();
    assert Screen(Symbol("ean13", data)) == Some(Strip(data));
    assert Screen(Symbol("qrcode", data)).None?;
  }

  lemma UpperEan13()
    ensures Upper("ean13") == "EAN13"
  {
  }

  lemma UpperQrCode()
    ensures Upper("qrcode") == "QRCODE"
  {
  }
}
