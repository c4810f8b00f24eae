/**
 * The diagnostics sink and the prefixed messages of rule and attribute
 * diagnostics. Contract violations are not diagnostics (see Analysis.Fatal).
 */
module Diagnostics {
  import opened Packages

  datatype Severity = Error | Warning

  /** What a diagnostic is about: one attribute of the rule, or the rule as a whole. */
  datatype Subject = AttributeSubject(attrName: string) | RuleSubject

  /**
   * One reported diagnostic, kept as its parts: the rule it is about (class
   * and label), the subject and the detail. Message renders the text users see.
   */
  datatype Event = Event(severity: Severity, location: Location, ruleClass: string, ruleId: Label,
                         subject: Subject, detail: string)

  const ImplicitDependency: string := "(an implicit dependency)"

  /** The attribute name as shown to users: implicit attributes are masked. */
  function MaskInternalAttributeName(name: string): (r: string)
    ensures !IsImplicit(r)
    ensures r == name || r == ImplicitDependency
    ensures IsImplicit(name) <==> r != name
  {
    if IsImplicit(name) then ImplicitDependency else name
  }

  /** "in <attr> attribute of <class> rule <label>: <message>", with <attr> masked. */
  function PrefixAttributeMessage(ruleClass: string, id: Label, attrName: string, message: string): (r: string)
    ensures EndsWith(r, message)
    ensures |r| == 3 + |MaskInternalAttributeName(attrName)| + 14 + |ruleClass| + 6 + |LabelString(id)| + 2 + |message|
    ensures r[..3] == "in " && r[3..3 + |MaskInternalAttributeName(attrName)|] == MaskInternalAttributeName(attrName)
    ensures var m := |MaskInternalAttributeName(attrName)|;
      && r[3 + m..17 + m] == " attribute of "
      && r[17 + m..17 + m + |ruleClass|] == ruleClass
      && r[17 + m + |ruleClass|..23 + m + |ruleClass|] == " rule "
      && r[23 + m + |ruleClass|..23 + m + |ruleClass| + |LabelString(id)|] == LabelString(id)
    ensures r[|r| - |message| - 2..|r| - |message|] == ": "
  {
    var shown := MaskInternalAttributeName(attrName);
    AttributeMessageLayout(shown, ruleClass, LabelString(id), message);
    "in " + shown + " attribute of " + ruleClass + " rule " + LabelString(id) + ": " + message
  }

  /** A slice within the first part of a concatenation is a slice of that part. */
  lemma SliceLeft(a: string, b: string, i: nat, j: nat)
    requires i <= j <= |a|
    ensures (a + b)[i..j] == a[i..j]
  {
  }

  /** A slice within the second part of a concatenation is a slice of that part. */
  lemma SliceRight(a: string, b: string, i: nat, j: nat)
    requires i <= j <= |b|
    ensures (a + b)[|a| + i..|a| + j] == b[i..j]
  {
  }

  /** Where each part of an attribute diagnostic's text sits. */
  lemma AttributeMessageLayout(shown: string, ruleClass: string, text: string, message: string)
    ensures var r := "in " + shown + " attribute of " + ruleClass + " rule " + text + ": " + message;
      var m, c, l := |shown|, |ruleClass|, |text|;
      && |r| == 25 + m + c + l + |message|
      && r[..3] == "in " && r[3..3 + m] == shown && r[3 + m..17 + m] == " attribute of "
      && r[17 + m..17 + m + c] == ruleClass && r[17 + m + c..23 + m + c] == " rule "
      && r[23 + m + c..23 + m + c + l] == text && r[23 + m + c + l..25 + m + c + l] == ": "
      && r[25 + m + c + l..] == message
  {
    var head := "in " + shown + " attribute of ";
    var tail := ruleClass + " rule " + text + ": " + message;
    var m, c, l := |shown|, |ruleClass|, |text|;
    assert head + tail == "in " + shown + " attribute of " + ruleClass + " rule " + text + ": " + message;
    HeadLayout(shown);
    TailLayout(ruleClass, text, message);
    SliceLeft(head, tail, 0, 3);
    SliceLeft(head, tail, 3, 3 + m);
    SliceLeft(head, tail, 3 + m, 17 + m);
    SliceRight(head, tail, 0, c);
    SliceRight(head, tail, c, c + 6);
    SliceRight(head, tail, c + 6, c + 6 + l);
    SliceRight(head, tail, c + 6 + l, c + 8 + l);
    SliceRight(head, tail, c + 8 + l, |tail|);
  }

  lemma HeadLayout(shown: string)
    ensures var h := "in " + shown + " attribute of ";
      |h| == 17 + |shown| && h[..3] == "in " && h[3..3 + |shown|] == shown && h[3 + |shown|..] == " attribute of "
  {
    var h := "in " + shown + " attribute of ";
    assert h[..3] == "in ";
    assert h[3..3 + |shown|] == shown;
    assert h[3 + |shown|..] == " attribute of ";
  }

  lemma TailLayout(ruleClass: string, text: string, message: string)
    ensures var t := ruleClass + " rule " + text + ": " + message;
      var c, l := |ruleClass|, |text|;
      && t[..c] == ruleClass && t[c..c + 6] == " rule " && t[c + 6..c + 6 + l] == text
      && t[c + 6 + l..c + 8 + l] == ": " && t[c + 8 + l..] == message
  {
    var t := ruleClass + " rule " + text + ": " + message;
    var c, l := |ruleClass|, |text|;
    assert t[..c] == ruleClass;
    assert t[c..c + 6] == " rule ";
    assert t[c + 6..c + 6 + l] == text;
    assert t[c + 6 + l..c + 8 + l] == ": ";
    assert t[c + 8 + l..] == message;
  }

  /** "in <class> rule <label>: <message>". */
  function PrefixRuleMessage(ruleClass: string, id: Label, message: string): (r: string)
    ensures EndsWith(r, message)
    ensures |r| == 3 + |ruleClass| + 6 + |LabelString(id)| + 2 + |message|
    ensures r[..3] == "in " && r[3..3 + |ruleClass|] == ruleClass
    ensures r[3 + |ruleClass|..9 + |ruleClass|] == " rule "
    ensures r[9 + |ruleClass|..9 + |ruleClass| + |LabelString(id)|] == LabelString(id)
    ensures r[|r| - |message| - 2..|r| - |message|] == ": "
  {
    var r := "in " + ruleClass + " rule " + LabelString(id) + ": " + message;
    assert r[3..3 + |ruleClass|] == ruleClass;
    assert r[3 + |ruleClass|..9 + |ruleClass|] == " rule ";
    assert r[9 + |ruleClass|..9 + |ruleClass| + |LabelString(id)|] == LabelString(id);
    r
  }

  function AttributeErrorEvent(rule: Rule, attrName: string, message: string): Event
  {
    Event(Error, AttributeLocation(rule, attrName), rule.ruleClass, rule.id, AttributeSubject(attrName), message)
  }

  function AttributeWarningEvent(rule: Rule, attrName: string, message: string): Event
  {
    Event(Warning, AttributeLocation(rule, attrName), rule.ruleClass, rule.id, AttributeSubject(attrName), message)
  }

  function RuleErrorEvent(rule: Rule, message: string): Event
  {
    Event(Error, rule.location, rule.ruleClass, rule.id, RuleSubject, message)
  }

  function RuleWarningEvent(rule: Rule, message: string): Event
  {
    Event(Warning, rule.location, rule.ruleClass, rule.id, RuleSubject, message)
  }

  /** The text of a diagnostic as reported: the detail behind its attribute or rule prefix. */
  function Message(e: Event): (r: string)
    ensures EndsWith(r, e.detail) && |r| > |e.detail|
    ensures |r| > 3 && r[..3] == "in "
    ensures e.subject.AttributeSubject? ==>
      var m := |MaskInternalAttributeName(e.subject.attrName)|;
      && |r| == 25 + m + |e.ruleClass| + |LabelString(e.ruleId)| + |e.detail|
      && r[3..3 + m] == MaskInternalAttributeName(e.subject.attrName)
      && r[3 + m..17 + m] == " attribute of "
      && r[17 + m..17 + m + |e.ruleClass|] == e.ruleClass
      && r[17 + m + |e.ruleClass|..23 + m + |e.ruleClass|] == " rule "
    ensures e.subject.RuleSubject? ==>
      && |r| == 11 + |e.ruleClass| + |LabelString(e.ruleId)| + |e.detail|
      && r[3..3 + |e.ruleClass|] == e.ruleClass
      && r[3 + |e.ruleClass|..9 + |e.ruleClass|] == " rule "
  {
    match e.subject
    case AttributeSubject(a) => PrefixAttributeMessage(e.ruleClass, e.ruleId, a, e.detail)
    case RuleSubject => PrefixRuleMessage(e.ruleClass, e.ruleId, e.detail)
  }

  predicate HasError(events: seq<Event>)
  {
    exists i :: 0 <= i < |events| && events[i].severity == Error
  }

  /** The append-only reporter of one analysis unit. */
  class Reporter {
    var events: seq<Event>

    constructor ()
      ensures events == []
    {
      events := [];
    }

    method Report(e: Event)
      modifies this
      ensures events == old(events) + [e]
    {
      events := events + [e];
    }

    method ReportAll(es: seq<Event>)
      modifies this
      ensures events == old(events) + es
    {
      events := events + es;
    }

    /** Whether an error has been reported; warnings never count. */
    predicate HasErrors()
      reads this
    {
      HasError(events)
    }
  }
}
