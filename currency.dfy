/** The currency helpers of lib/currency.ts. */
module Currency {
  import opened Wrappers
  import opened JsText
  import opened JsValues

  // ---------------------------------------------------------------------------
  // detectCurrencyFromRecord
  // ---------------------------------------------------------------------------

  /** The default keys, in the order they are tried. */
  const DEFAULT_CURRENCY_KEYS: seq<string> :=
    ["currency", "price_currency", "pricePerDayCurrency", "price_per_day_currency",
     "price_buy_currency", "priceBuyCurrency"]

  /** `k in rec && rec[k]`. */
  predicate Hit(rec: Record, k: string) {
    k in rec && Truthy(rec[k])
  }

  /** The currency code of the first key, in order, that holds a truthy value. */
  function Detect(rec: Option<Record>, keys: seq<string>): Option<string> {
    if rec.None? || keys == [] then None
    else if Hit(rec.value, keys[0]) then Some(Upper(ToJsString(rec.value[keys[0]])))
    else Detect(rec, keys[1..])
  }

  /** detectCurrencyFromRecord: walk the keys and return at the first truthy one. */
  method DetectCurrencyFromRecord(rec: Option<Record>, keys: seq<string>) returns (code: Option<string>)
    ensures code == Detect(rec, keys)
  {
    if rec.None? {
      return None;
    }
    var i := 0;
    while i < |keys|
      invariant 0 <= i <= |keys|
      invariant Detect(rec, keys) == Detect(rec, keys[i..])
    {
      assert keys[i..][1..] == keys[i + 1..];
      if keys[i] in rec.value && Truthy(rec.value[keys[i]]) {
        return Some(Upper(ToJsString(rec.value[keys[i]])));
      }
      i := i + 1;
    }
    return None;
  }

  /** The result comes from the first key that hits, and is undefined when no key hits. */
  lemma DetectFindsFirstHit(rec: Option<Record>, keys: seq<string>)
    ensures Detect(rec, keys).None? <==> rec.None? || forall i :: 0 <= i < |keys| ==> !Hit(rec.value, keys[i])
    ensures Detect(rec, keys).Some? ==>
      exists i :: 0 <= i < |keys| && Hit(rec.value, keys[i]) &&
        (forall j :: 0 <= j < i ==> !Hit(rec.value, keys[j])) &&
        Detect(rec, keys) == Some(Upper(ToJsString(rec.value[keys[i]])))
  {
    DetectNoneIffNoHit(rec, keys);
    if Detect(rec, keys).Some? {
      var i := DetectIndex(rec, keys);
    }
  }

  /** Nothing is detected exactly when the record is missing or no key hits. */
  lemma {:induction false} DetectNoneIffNoHit(rec: Option<Record>, keys: seq<string>)
    ensures Detect(rec, keys).None? <==> rec.None? || forall i :: 0 <= i < |keys| ==> !Hit(rec.value, keys[i])
  {
    if rec.Some? && keys != [] && !Hit(rec.value, keys[0]) {
      DetectNoneIffNoHit(rec, keys[1..]);
      if Detect(rec, keys).None? {
        forall i | 0 <= i < |keys| ensures !Hit(rec.value, keys[i]) {
          if i > 0 {
            assert keys[i] == keys[1..][i - 1];
          }
        }
      } else {
        var i :| 0 <= i < |keys[1..]| && Hit(rec.value, keys[1..][i]);
        assert keys[i + 1] == keys[1..][i];
      }
    }
  }

  /** The index of the key a detected code comes from: it hits, and no earlier key does. */
  lemma {:induction false} DetectIndex(rec: Option<Record>, keys: seq<string>) returns (i: nat)
    requires Detect(rec, keys).Some?
    ensures rec.Some? && i < |keys| && Hit(rec.value, keys[i])
    ensures forall j :: 0 <= j < i ==> !Hit(rec.value, keys[j])
    ensures Detect(rec, keys) == Some(Upper(ToJsString(rec.value[keys[i]])))
  {
    if Hit(rec.value, keys[0]) {
      i := 0;
    } else {
      var k := DetectIndex(rec, keys[1..]);
      i := k + 1;
      assert keys[i] == keys[1..][k];
      forall j | 0 <= j < i ensures !Hit(rec.value, keys[j]) {
        if j > 0 {
          assert keys[j] == keys[1..][j - 1];
        }
      }
    }
  }

  lemma UpperIdempotent(s: string)
    ensures Upper(Upper(s)) == Upper(s)
  {
  }

  /** The code is always upper case. */
  lemma {:induction false} DetectIsUpperCase(rec: Option<Record>, keys: seq<string>)
    ensures Detect(rec, keys).Some? ==> Upper(Detect(rec, keys).value) == Detect(rec, keys).value
  {
    if rec.Some? && keys != [] {
      if Hit(rec.value, keys[0]) {
        UpperIdempotent(ToJsString(rec.value[keys[0]]));
      } else {
        DetectIsUpperCase(rec, keys[1..]);
      }
    }
  }

  // ---------------------------------------------------------------------------
  // formatCurrency
  // ---------------------------------------------------------------------------

  /** The `value` argument: undefined or null, a number, or a string. */
  datatype Amount = Absent | NumberArg(n: Num) | TextArg(s: string)

  /** The options handed to `Intl.NumberFormat`, with the amount to format. */
  datatype IntlRequest = IntlRequest(locale: string, currency: string, maxFractionDigits: Option<int>, amount: int)

  /** `Intl.NumberFormat(...).format(amount)`; `None` is the exception the source catches. */
  type IntlFormat = IntlRequest -> Option<string>

  /** `(currency || 'UGX').toString().toUpperCase()`. */
  function CurrencyCode(currency: Option<string>): string {
    Upper(OrDefault(currency, "UGX"))
  }

  /** The catch branch: a plain prefix. */
  function FallbackFormat(curr: string, amount: int): string {
    if curr == "UGX" then "UGX " + IntToString(amount)
    else if curr == "USD" then "$" + IntToString(amount)
    else curr + " " + IntToString(amount)
  }

  /** The request the try branch makes. */
  function Request(curr: string, amount: int): IntlRequest {
    if curr == "UGX" then IntlRequest("en-UG", "UGX", Some(0), amount)
    else IntlRequest("en-US", curr, None, amount)
  }

  /** formatCurrency; `toNumber` is `Number(...)` on a string and `intl` the locale formatter. */
  function FormatCurrency(value: Amount, currency: Option<string>, toNumber: string -> Num,
                          intl: IntlFormat): string {
    if value.Absent? || value == TextArg("") then ""
    else
      var amount := if value.TextArg? then toNumber(value.s) else value.n;
      if amount.NaN? then (if value.TextArg? then value.s else "NaN")
      else
        var curr := CurrencyCode(currency);
        var formatted := intl(Request(curr, amount.v));
        if formatted.Some? then formatted.value else FallbackFormat(curr, amount.v)
  }

  /** undefined, null and "" format as ""; a string that does not parse comes back unchanged. */
  lemma EarlyReturns(value: Amount, currency: Option<string>, toNumber: string -> Num, intl: IntlFormat)
    ensures value.Absent? || value == TextArg("") ==> FormatCurrency(value, currency, toNumber, intl) == ""
    ensures value.TextArg? && value.s != "" && toNumber(value.s).NaN? ==>
      FormatCurrency(value, currency, toNumber, intl) == value.s
  {
  }

  /** A numeric string formats like the number it parses to. */
  lemma StringFormatsLikeNumber(s: string, currency: Option<string>, toNumber: string -> Num, intl: IntlFormat)
    requires s != "" && toNumber(s).Fin?
    ensures FormatCurrency(TextArg(s), currency, toNumber, intl) ==
      FormatCurrency(NumberArg(toNumber(s)), currency, toNumber, intl)
  {
  }

  lemma UpperOfLower(s: string)
    ensures Upper(Lower(s)) == Upper(s)
  {
  }

  /** The currency argument's letter case is irrelevant, and a missing or empty one means UGX. */
  lemma CurrencyDefaultsAndCase(value: Amount, c: string, toNumber: string -> Num, intl: IntlFormat)
    ensures FormatCurrency(value, Some(Lower(c)), toNumber, intl) == FormatCurrency(value, Some(c), toNumber, intl)
    ensures FormatCurrency(value, None, toNumber, intl) == FormatCurrency(value, Some(""), toNumber, intl)
    ensures FormatCurrency(value, None, toNumber, intl) == FormatCurrency(value, Some("ugx"), toNumber, intl)
  {
    UpperOfLower(c);
    assert |Lower(c)| == |c|;
    assert Upper("UGX") == "UGX";
    assert Upper("ugx") == "UGX";
  }

  /** When the formatter throws, the amount follows "UGX ", "$" or the code and a space. */
  lemma FallbackShapes(amount: int, currency: Option<string>, toNumber: string -> Num, intl: IntlFormat)
    requires intl(Request(CurrencyCode(currency), amount)).None?
    ensures var r := FormatCurrency(NumberArg(Fin(amount)), currency, toNumber, intl);
      && (CurrencyCode(currency) == "UGX" ==> r == "UGX " + IntToString(amount))
      && (CurrencyCode(currency) == "USD" ==> r == "$" + IntToString(amount))
      && (CurrencyCode(currency) !in {"UGX", "USD"} ==> r == CurrencyCode(currency) + " " + IntToString(amount))
      && EndsWith(r, IntToString(amount))
  {
  }

  /**
   * When the formatter succeeds its text is the result, and it was asked for the chosen
   * code and amount, for Uganda without decimals exactly when the code is UGX.
   */
  lemma FormattedByRequest(amount: int, currency: Option<string>, toNumber: string -> Num, intl: IntlFormat)
    requires intl(Request(CurrencyCode(currency), amount)).Some?
    ensures var req := Request(CurrencyCode(currency), amount);
      && FormatCurrency(NumberArg(Fin(amount)), currency, toNumber, intl) == intl(req).value
      && req.currency == CurrencyCode(currency) && req.amount == amount
      && (CurrencyCode(currency) == "UGX" <==> req.locale == "en-UG")
      && (CurrencyCode(currency) == "UGX" <==> req.maxFractionDigits == Some(0))
  {
  }
}
