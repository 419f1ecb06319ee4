/** What the handlers share about requests and responses. */
module Http {
  import opened Wrappers
  import opened Text
  import HR = HeartRate

  /** A JSON answer: `res.json(body)`, or `res.status(code).json({ error })`. */
  datatype Response<T> = Ok(body: T) | Error(code: nat, error: string)

  const QueryMismatch: string := "deviceId query param must match x-device-id"
  const BadTelemetryBody: string := "Body must include numeric bpm and spo2"

  /** `!queryDeviceId || queryDeviceId !== deviceId` fails: the query names the
      authenticated device. A query value that is not a single string is `None`. */
  predicate QueryMatches(query: Option<string>, deviceId: string)
    ensures QueryMatches(query, deviceId) <==> query == Some(deviceId) && deviceId != ""
  {
    Truthy(query) && query.value == deviceId
  }

  /** A field of a JSON request body. JSON has no `undefined`, so `Absent` inside an
      array reads as `null` would. */
  datatype BodyValue =
    | Absent | Null | Boolean(b: bool) | Number(n: HR.Num) | Text(s: string)
    | Array(elems: seq<BodyValue>) | Object

  /** JavaScript's `Number(v)` on a body field. Text is read as a number when it is empty
      or all decimal digits. An array is read through its text, the `","`-join of its
      elements: `[]` is 0, a single element reads as that element's text (`null` as ""),
      and two or more elements give text holding a comma, which is not a number. An object
      reads as `"[object Object]"`, which is not a number either. */
  function ToNumber(v: BodyValue): (n: HR.Num)
    ensures v.Absent? ==> n.NonFinite?
    ensures v.Null? ==> n == HR.Finite(0)
    ensures v.Number? ==> n == v.n
    ensures v.Boolean? ==> n == HR.Finite(if v.b then 1 else 0)
    ensures v.Text? && v.s == "" ==> n == HR.Finite(0)
    ensures v.Text? && !AllDigits(v.s) ==> n.NonFinite?
    decreases v
  {
    match v
    case Absent => HR.NonFinite
    case Null => HR.Finite(0)
    case Boolean(b) => HR.Finite(if b then 1 else 0)
    case Number(x) => x
    case Text(s) => if AllDigits(s) then HR.Finite(DigitsValue(s)) else HR.NonFinite
    case Object => HR.NonFinite
    case Array(elems) =>
      if elems == [] then HR.Finite(0)
      else if |elems| >= 2 then HR.NonFinite
      else
        match elems[0]
        case Absent => HR.Finite(0)
        case Null => HR.Finite(0)
        case Boolean(_) => HR.NonFinite
        case Object => HR.NonFinite
        case _ => ToNumber(elems[0])  // a number, text or array reads back from its own text
  }

  /** An object is no number, an empty array is 0, and an array of two or more elements
      is no number, since its text holds a comma. */
  lemma ObjectAndArrayFields(v: BodyValue)
    ensures v.Object? ==> ToNumber(v).NonFinite?
    ensures v.Array? && v.elems == [] ==> ToNumber(v) == HR.Finite(0)
    ensures v.Array? && |v.elems| >= 2 ==> ToNumber(v).NonFinite?
  {
  }

  /** A one-element array reads as its element's text: a number, text or nested array as
      that element does, `null` as 0, and a boolean or object as no number (`"true"` and
      `"[object Object]"` are not numeric text). */
  lemma SingletonArrayReadsAsElement(x: BodyValue)
    ensures x.Number? || x.Text? || x.Array? ==> ToNumber(Array([x])) == ToNumber(x)
    ensures x.Null? || x.Absent? ==> ToNumber(Array([x])) == HR.Finite(0)
    ensures x.Boolean? || x.Object? ==> ToNumber(Array([x])).NonFinite?
  {
  }

  /** A whole number sent as its decimal text is read back as that number. */
  lemma NumericTextRoundTrip(n: nat)
    ensures ToNumber(Text(NatToString(n))) == HR.Finite(n)
  {
    DigitsValueOfNatToString(n);
  }
}
