/** The alert value (com.alerts.Alert): set once by its constructor, read through its getters (the datatype's
    fields), compared structurally by equals, rendered by toString. */
module Alerts {
  import opened JavaText

  datatype Alert = Alert(patientId: string, condition: string, timestamp: int)

  /** What `equals(Object)` may be handed: null, an Alert, or an object of another class. */
  datatype Candidate = Null | AlertObject(alert: Alert) | OtherObject

  /** equals: true exactly for an Alert with the same timestamp, patient id and condition. */
  function Equals(a: Alert, obj: Candidate): (r: bool)
    ensures r <==> obj == AlertObject(a)
  {
    match obj
    case Null => false
    case OtherObject => false
    case AlertObject(other) =>
      a.timestamp == other.timestamp && a.patientId == other.patientId && a.condition == other.condition
  }

  lemma EqualsReflexive(a: Alert)
    ensures Equals(a, AlertObject(a))
  {
  }

  lemma EqualsSymmetric(a: Alert, b: Alert)
    ensures Equals(a, AlertObject(b)) == Equals(b, AlertObject(a))
  {
  }

  /** toString: Alert{patientId='<id>', condition='<condition>', timestamp=<timestamp>}. */
  function ToString(a: Alert): (s: string)
    ensures |s| == 45 + |a.patientId| + |a.condition| + |FormatInt(a.timestamp)|
    ensures s[..17] == "Alert{patientId='" && s[|s| - 1] == '}'
  {
    "Alert{patientId='" + a.patientId + "'" + ConditionText(a)
  }

  function ConditionText(a: Alert): string {
    ", condition='" + a.condition + "'" + TimestampText(a)
  }

  function TimestampText(a: Alert): string {
    ", timestamp=" + FormatInt(a.timestamp) + "}"
  }

  predicate NoQuote(s: string) {
    forall i :: 0 <= i < |s| ==> s[i] != '\''
  }

  /** After a common prefix, a quote-free text followed by a quote is determined by where the first quote
      stands. */
  lemma SplitAtQuote(p: string, x: string, y: string, x': string, y': string)
    requires NoQuote(x) && NoQuote(x')
    requires p + x + "'" + y == p + x' + "'" + y'
    ensures x == x' && y == y'
  {
    var s := p + x + "'" + y;
    var s' := p + x' + "'" + y';
    assert s[|p|..] == x + "'" + y;
    assert s'[|p|..] == x' + "'" + y';
    var t := x + "'" + y;
    var t' := x' + "'" + y';
    assert t == t';
    assert t == x + ("'" + y) && t' == x' + ("'" + y');
    IndexOfAfter(x, "'" + y, '\'');
    IndexOfAfter(x', "'" + y', '\'');
    assert x == t[..|x|] && x' == t'[..|x'|];
    assert y == t[|x| + 1..] && y' == t'[|x'| + 1..];
  }

  /** When neither the patient id nor the condition contains a quote, toString tells alerts apart: distinct
      alerts have distinct texts. */
  lemma ToStringInjective(a: Alert, b: Alert)
    requires NoQuote(a.patientId) && NoQuote(a.condition) && NoQuote(b.patientId) && NoQuote(b.condition)
    requires ToString(a) == ToString(b)
    ensures a == b
  {
    SplitAtQuote("Alert{patientId='", a.patientId, ConditionText(a), b.patientId, ConditionText(b));
    SplitAtQuote(", condition='", a.condition, TimestampText(a), b.condition, TimestampText(b));
    var ta, tb := TimestampText(a), TimestampText(b);
    assert FormatInt(a.timestamp) == ta[12..|ta| - 1];
    assert FormatInt(b.timestamp) == tb[12..|tb| - 1];
    FormatIntInjective(a.timestamp, b.timestamp);
  }
}
