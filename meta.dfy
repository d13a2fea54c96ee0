/**
 * Decoding of a ledger entry's `metadata` field and the two pure case
 * analyses that classify an entry from it: the icon and the description
 * shown in the transaction history (app-v2.js, safeParseMeta, txIcon, txDesc).
 */
module Meta {
  import opened Wrappers

  /** The `metadata` field as the server sends it: absent (null, undefined
      or missing), an already decoded JSON object, or a JSON-encoded string.
      Only string-valued properties are represented. */
  datatype RawMeta = Missing | Object(fields: map<string, string>) | Text(s: string)

  /** What `safeParseMeta` can hand on: the JSON value `null`, or an object
      seen through its string-valued properties. A JSON number, string,
      boolean or array has no such properties and is an `Obj(map[])`. */
  datatype Parsed = JsNull | Obj(fields: map<string, string>)

  /** The four glyphs of the history list: ➕ 🛒 🔁 💸 */
  datatype Icon = CreditIcon | CartIcon | RefundIcon | TransferIcon

  function Glyph(i: Icon): string
  {
    match i
    case CreditIcon => "\U{2795}"
    case CartIcon => "\U{1F6D2}"
    case RefundIcon => "\U{1F501}"
    case TransferIcon => "\U{1F4B8}"
  }

  /** `JSON.parse` is abstract: `parse(s) == None` when it throws. */
  function SafeParseMeta(raw: RawMeta, parse: string -> Option<Parsed>): (r: Parsed)
    ensures raw.Missing? ==> r == Obj(map[])
    ensures raw.Object? ==> r == Obj(raw.fields)
    ensures raw.Text? && raw.s == "" ==> r == Obj(map[])
    ensures raw.Text? && raw.s != "" && parse(raw.s).None? ==> r == Obj(map[])
    ensures raw.Text? && raw.s != "" && parse(raw.s).Some? ==> r == parse(raw.s).value
    ensures r.JsNull? ==> raw.Text? && parse(raw.s) == Some(JsNull)
  {
    match raw
    case Missing => Obj(map[])
    case Object(f) => Obj(f)
    case Text(s) =>
      if s == "" then Obj(map[])
      else
        match parse(s)
        case None => Obj(map[])
        case Some(p) => p
  }

  /** JavaScript truthiness of `meta.<name>`: present and not the empty string. */
  function Truthy(meta: Parsed, name: string): (r: Option<string>)
    ensures r.Some? <==> meta.Obj? && name in meta.fields && meta.fields[name] != ""
    ensures r.Some? ==> r.value == meta.fields[name]
  {
    if meta.Obj? && name in meta.fields && meta.fields[name] != "" then Some(meta.fields[name]) else None
  }

  /** `===` on `meta.type`: the property is present and equal to `s`. */
  predicate TypeIs(meta: Parsed, s: string)
  {
    meta.Obj? && "type" in meta.fields && meta.fields["type"] == s
  }

  function LowerChar(c: char): char
  {
    if 'A' <= c <= 'Z' then (c as int - 'A' as int + 'a' as int) as char else c
  }

  /** `toLowerCase` on the ASCII letters. */
  function Lower(s: string): (r: string)
    ensures |r| == |s|
    ensures forall i :: 0 <= i < |s| ==> r[i] == LowerChar(s[i])
  {
    seq(|s|, i requires 0 <= i < |s| => LowerChar(s[i]))
  }

  /** `meta.type.toLowerCase()` when `meta.type` is truthy, else null. */
  function LowerType(meta: Parsed): (r: Option<string>)
    ensures r.Some? <==> Truthy(meta, "type").Some?
    ensures r.Some? ==> r.value == Lower(meta.fields["type"])
  {
    match Truthy(meta, "type")
    case Some(t) => Some(Lower(t))
    case None => None
  }

  /** The type words that select a fixed glyph, whatever the amount. */
  predicate KnownIconType(t: Option<string>)
  {
    t == Some("topup") || t == Some("purchase") || t == Some("refund") || t == Some("transfer")
  }

  function TxIcon(meta: Parsed, amount: int): (r: Icon)
    ensures LowerType(meta) == Some("topup") ==> r == CreditIcon
    ensures LowerType(meta) == Some("purchase") ==> r == CartIcon
    ensures LowerType(meta) == Some("refund") ==> r == RefundIcon
    ensures LowerType(meta) == Some("transfer") ==> r == TransferIcon
    ensures !KnownIconType(LowerType(meta)) ==> (r == CreditIcon <==> amount > 0)
    ensures !KnownIconType(LowerType(meta)) ==> r == CreditIcon || r == TransferIcon
  {
    var ty := LowerType(meta);
    if ty == Some("topup") then CreditIcon
    else if ty == Some("purchase") then CartIcon
    else if ty == Some("refund") then RefundIcon
    else if ty == Some("transfer") then TransferIcon
    else if amount > 0 then CreditIcon
    else TransferIcon
  }

  /** One of the three `meta.type` values that `txDesc` labels outright. */
  predicate FixedDescType(meta: Parsed)
  {
    TypeIs(meta, "topup") || TypeIs(meta, "purchase") || TypeIs(meta, "refund")
  }

  function TxDesc(meta: Parsed, amount: int): (r: string)
    ensures r != ""
    ensures meta.JsNull? ==> r == "Transaction"
    ensures TypeIs(meta, "topup") ==> r == "Top-up"
    ensures TypeIs(meta, "purchase") ==> r == "Purchase"
    ensures TypeIs(meta, "refund") ==> r == "Refund"
    ensures meta.Obj? && !FixedDescType(meta) && Truthy(meta, "counterparty").Some? ==>
      r == (if amount > 0 then "Received from " else "Sent to ") + meta.fields["counterparty"]
    ensures meta.Obj? && !FixedDescType(meta) && Truthy(meta, "counterparty").None? ==>
      r == (if Truthy(meta, "note").Some? then meta.fields["note"] else "Transaction")
  {
    if meta.JsNull? then "Transaction"
    else if TypeIs(meta, "topup") then "Top-up"
    else if TypeIs(meta, "purchase") then "Purchase"
    else if TypeIs(meta, "refund") then "Refund"
    else
      match Truthy(meta, "counterparty")
      case Some(cp) => if amount > 0 then "Received from " + cp else "Sent to " + cp
      case None =>
        match Truthy(meta, "note")
        case Some(n) => n
        case None => "Transaction"
  }

  /** The icon ignores the case of `meta.type`: lowering it first changes nothing. */
  lemma IconIgnoresTypeCase(fields: map<string, string>, amount: int)
    requires "type" in fields
    ensures TxIcon(Obj(fields), amount) == TxIcon(Obj(fields["type" := Lower(fields["type"])]), amount)
  {
    var t := fields["type"];
    var g := fields["type" := Lower(t)];
    assert Lower(Lower(t)) == Lower(t);
    assert LowerType(Obj(g)) == LowerType(Obj(fields));
  }

  /** Where the description is one of the three fixed labels, the icon is
      the matching glyph; the description is case-sensitive and the icon is
      not, so the converse fails (`type: "TopUp"`). */
  lemma DescAgreesWithIcon(meta: Parsed, amount: int)
    ensures TypeIs(meta, "topup") ==> TxDesc(meta, amount) == "Top-up" && TxIcon(meta, amount) == CreditIcon
    ensures TypeIs(meta, "purchase") ==> TxDesc(meta, amount) == "Purchase" && TxIcon(meta, amount) == CartIcon
    ensures TypeIs(meta, "refund") ==> TxDesc(meta, amount) == "Refund" && TxIcon(meta, amount) == RefundIcon
  {
    if TypeIs(meta, "topup") {
      assert Lower("topup") == "topup";
    } else if TypeIs(meta, "purchase") {
      assert Lower("purchase") == "purchase";
    } else if TypeIs(meta, "refund") {
      assert Lower("refund") == "refund";
    }
  }

  /** The sign of the amount matters to the description only through a counterparty. */
  lemma DescSignMattersOnlyForCounterparty(meta: Parsed, a: int, b: int)
    requires meta.JsNull? || FixedDescType(meta) || Truthy(meta, "counterparty").None?
    ensures TxDesc(meta, a) == TxDesc(meta, b)
  {
  }

  /** A top-up of 500 reads "Top-up" with the credit glyph; a debit of 300
      with counterparty Bob reads "Sent to Bob" with the transfer glyph. */
  lemma WorkedExamples()
    ensures TxDesc(Obj(map["type" := "topup"]), 500) == "Top-up"
    ensures TxIcon(Obj(map["type" := "topup"]), 500) == CreditIcon
    ensures TxDesc(Obj(map["counterparty" := "Bob"]), -300) == "Sent to Bob"
    ensures TxIcon(Obj(map["counterparty" := "Bob"]), -300) == TransferIcon
  {
    assert Lower("topup") == "topup";
  }
}
