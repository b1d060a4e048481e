/**
 * What a concrete record type declares about itself (attribute names,
 * defaults, descriptions, embedded documents, primary-key alias, change
 * tracking, configuration options and validation rules), and the type-level
 * lookups computed from those declarations.
 */
module RecordSchema {
  import opened PhpValues

  /** The exceptions the record layer raises. */
  datatype Failure =
    | InvalidState          // operating on a deleted record
    | Persistence           // the driver reported no inserted document
    | UndeclaredEmbedded    // no embedded-document definition for the name
    | EmbeddedAttributes(name: string)  // an embedded `class` field has no attributes to read
    | NoSuchClass           // `model()` of a class that does not exist
    | NoStringForm(name: string)  // an object or record property used where PHP needs its string form
    | ImportFailed(item: nat, total: nat)

  datatype Result<+T> = Ok(value: T) | Err(failure: Failure)

  /** One entry of `configOptions()`; a `default` of VNull means the entry has none. */
  datatype ConfigOption = ConfigOption(group: string, name: string, default: Value)

  /** One entry of the validation-rule list: `[attributeList, tag, ...]`, or something that is not an array. */
  datatype Rule = Rule(attributes: string, tag: string) | NonArrayRule

  datatype Schema = Schema(
    className: string,
    attributeNames: seq<string>,
    defaults: map<string, Value>,
    descriptions: map<string, Value>,
    /** embedded document name (a class name for kind `class`) to kind tag */
    embedded: map<string, string>,
    /** the properties of a freshly constructed instance of each embeddable class */
    nestedFresh: map<string, seq<Pair>>,
    primaryKey: string,
    trackChanges: bool,
    configOptions: seq<ConfigOption>,
    rules: seq<Rule>)

  /** Every embedded name whose kind reads as `class` names a class that can be instantiated. */
  predicate WellFormed(s: Schema)
  {
    forall n :: n in s.embedded && Lower(s.embedded[n]) == "class" ==> n in s.nestedFresh
  }

  predicate IsDeclared(s: Schema, name: string)
  {
    name in s.attributeNames
  }

  // ------------------------------------------------------------ rules

  /** The trimmed pieces of the attribute lists of the rules whose trimmed, lower-cased tag is `tag`, in rule order. */
  function RuleAttributes(rules: seq<Rule>, tag: string): seq<string>
  {
    if |rules| == 0 then []
    else
      Contribution(rules[0], tag) + RuleAttributes(rules[1..], tag)
  }

  /** What one rule adds to the scan. */
  function Contribution(rule: Rule, tag: string): seq<string>
  {
    if Selects(rule, tag) then TrimAll(Split(rule.attributes, ',')) else []
  }

  function TrimAll(parts: seq<string>): (r: seq<string>)
    ensures |r| == |parts|
    ensures forall k :: 0 <= k < |parts| ==> r[k] == Trim(parts[k])
  {
    if |parts| == 0 then [] else [Trim(parts[0])] + TrimAll(parts[1..])
  }

  function RequiredAttributes(s: Schema): seq<string>
  {
    RuleAttributes(s.rules, "required")
  }

  function UniqueAttributes(s: Schema): seq<string>
  {
    RuleAttributes(s.rules, "unique")
  }

  predicate Selects(rule: Rule, tag: string)
  {
    rule.Rule? && Lower(Trim(rule.tag)) == tag
  }

  /** One rule lists a name when it is selected and one of its comma-separated pieces trims to the name. */
  predicate Lists(rule: Rule, tag: string, a: string)
  {
    Selects(rule, tag) && exists k :: 0 <= k < |Split(rule.attributes, ',')| && Trim(Split(rule.attributes, ',')[k]) == a
  }

  lemma ContributionMembership(rule: Rule, tag: string, a: string)
    ensures a in Contribution(rule, tag) <==> Lists(rule, tag, a)
  {
    if Selects(rule, tag) {
      var parts := Split(rule.attributes, ',');
      if a in Contribution(rule, tag) {
        var k :| 0 <= k < |TrimAll(parts)| && TrimAll(parts)[k] == a;
        assert Trim(parts[k]) == a;
      }
    }
  }

  /** A name is listed exactly when some selected rule's comma-separated list holds it, up to surrounding white space. */
  lemma {:induction false} RuleAttributesMembership(rules: seq<Rule>, tag: string, a: string)
    ensures a in RuleAttributes(rules, tag) <==> exists i :: 0 <= i < |rules| && Lists(rules[i], tag, a)
  {
    if |rules| > 0 {
      var rest := rules[1..];
      RuleAttributesMembership(rest, tag, a);
      ContributionMembership(rules[0], tag, a);
      if exists i :: 0 <= i < |rules| && Lists(rules[i], tag, a) {
        var i :| 0 <= i < |rules| && Lists(rules[i], tag, a);
        if i > 0 {
          assert rest[i - 1] == rules[i];
        }
      }
      if exists i :: 0 <= i < |rest| && Lists(rest[i], tag, a) {
        var i :| 0 <= i < |rest| && Lists(rest[i], tag, a);
        assert rules[i + 1] == rest[i];
      }
    }
  }

  /** Scanning a longer rule list extends the result: names come out in rule order. */
  lemma {:induction false} RuleAttributesAppend(r1: seq<Rule>, r2: seq<Rule>, tag: string)
    ensures RuleAttributes(r1 + r2, tag) == RuleAttributes(r1, tag) + RuleAttributes(r2, tag)
  {
    if |r1| == 0 {
      assert r1 + r2 == r2;
    } else {
      assert (r1 + r2)[0] == r1[0];
      assert (r1 + r2)[1..] == r1[1..] + r2;
      RuleAttributesAppend(r1[1..], r2, tag);
    }
  }

  /** `isAttributeRequired`. */
  function IsAttributeRequired(s: Schema, attribute: string): (r: bool)
  {
    attribute in RequiredAttributes(s)
  }

  /** The required-attribute lookup holds exactly for the names some `required` rule lists. */
  lemma IsAttributeRequiredMeans(s: Schema, attribute: string)
    ensures IsAttributeRequired(s, attribute) <==> exists i :: 0 <= i < |s.rules| && Lists(s.rules[i], "required", attribute)
  {
    RuleAttributesMembership(s.rules, "required", attribute);
  }

  // The string steps of `RequiredScenario`: how its labels select and how its list splits.

  lemma SplitNameEmail()
    ensures Split("Name, Email", ',') == ["Name", " Email"]
  {
    var e := " Email";
    assert forall j :: 0 <= j < |e| ==> e[j] != ',' by {
      assert e == [' ', 'E', 'm', 'a', 'i', 'l'];
    }
    SplitWithout(e, ',');
    assert "Name, Email" == "Name" + [','] + e;
    SplitAtFirst("Name", e, ',');
  }

  lemma SelectsSamples()
    ensures Selects(Rule("Name, Email", "Required"), "required")
    ensures !Selects(Rule("Name, Email", "Required"), "unique")
    ensures !Selects(Rule("Age", "numerical"), "required") && !Selects(Rule("Age", "numerical"), "unique")
  {
    TrimUntouched("Required");
    var low := Lower("Required");
    assert low == "required";
    TrimUntouched("numerical");
    assert Lower("numerical")[0] == 'n';
  }

  lemma TrimSamples()
    ensures Trim(" Email") == "Email" && Trim("Name") == "Name"
  {
    TrimUntouched("Name");
    TrimUntouched("Email");
    assert " Email"[1..] == "Email";
  }

  /** A rule `["Name, Email", "Required"]` makes Name and Email required, and nothing else. */
  lemma RequiredScenario(s: Schema)
    requires s.rules == [Rule("Name, Email", "Required"), Rule("Age", "numerical"), NonArrayRule]
    ensures RequiredAttributes(s) == ["Name", "Email"]
    ensures IsAttributeRequired(s, "Email") && !IsAttributeRequired(s, "Age")
    ensures UniqueAttributes(s) == []
  {
    var r := s.rules;
    SelectsSamples();
    TrimSamples();
    SplitNameEmail();
    assert Contribution(r[0], "required") == ["Name", "Email"];
    assert Contribution(r[1], "required") == [] && Contribution(r[2], "required") == [];
    assert Contribution(r[0], "unique") == [] && Contribution(r[1], "unique") == [] && Contribution(r[2], "unique") == [];
    assert r[1..][1..][1..] == [];
    assert RuleAttributes(r[1..][1..], "required") == [] && RuleAttributes(r[1..][1..], "unique") == [];
    assert RuleAttributes(r[1..], "required") == [] && RuleAttributes(r[1..], "unique") == [];
  }

  // ------------------------------------------------------------ lookups

  /** `getAttributeDescription`: the declared entry, or null when there is none. */
  function AttributeDescription(s: Schema, name: string): (r: Value)
    ensures r != VNull ==> name in s.descriptions && s.descriptions[name] == r
    ensures name in s.descriptions ==> r == s.descriptions[name]
    ensures name !in s.descriptions ==> r == VNull
  {
    if name in s.descriptions && IsSet(s.descriptions[name]) then s.descriptions[name] else VNull
  }

  /** `getAttributeDefault`: the declared default, or null when there is none. */
  function AttributeDefault(s: Schema, name: string): (r: Value)
    ensures r != VNull ==> name in s.defaults && s.defaults[name] == r
    ensures name in s.defaults ==> r == s.defaults[name]
    ensures name !in s.defaults ==> r == VNull
  {
    if name in s.defaults && IsSet(s.defaults[name]) then s.defaults[name] else VNull
  }

  /** A fresh value for an embedded name, by its kind compared case-insensitively. */
  function FreshEmbedded(s: Schema, name: string): (r: Value)
    requires WellFormed(s) && name in s.embedded
    ensures Lower(s.embedded[name]) == "class" ==> r == VRecord(name, s.nestedFresh[name])
    ensures Lower(s.embedded[name]) == "array" ==> r == VArray([])
    ensures Lower(s.embedded[name]) != "class" && Lower(s.embedded[name]) != "array" ==> r == VObject([])
  {
    var kind := Lower(s.embedded[name]);
    if kind == "class" then VRecord(name, s.nestedFresh[name])
    else if kind == "array" then VArray([])
    else VObject([])
  }

  /**
   * `embeddedDoc(name)`: fails for an undeclared name; otherwise the stored
   * embedded value when one is set, or a fresh default by kind. No member of
   * the model class ever writes its table of stored embedded values, so in
   * the source `stored` is always empty and the first `Ok` branch is never
   * taken; it is kept so that the function reads as the method is written.
   */
  function EmbeddedDoc(s: Schema, stored: map<string, Value>, name: string): (r: Result<Value>)
    requires WellFormed(s)
    ensures r.Err? <==> name !in s.embedded
    ensures r.Err? ==> r.failure == UndeclaredEmbedded
    ensures r.Ok? && name in stored && IsSet(stored[name]) ==> r.value == stored[name]
    ensures r.Ok? && (name !in stored || !IsSet(stored[name])) ==> r.value == FreshEmbedded(s, name)
  {
    if name !in s.embedded then Err(UndeclaredEmbedded)
    else if name in stored && IsSet(stored[name]) then Ok(stored[name])
    else Ok(FreshEmbedded(s, name))
  }

  /** Whatever the stored values, an embedded document never comes back null and its kind decides its shape. */
  lemma EmbeddedDocShape(s: Schema, name: string)
    requires WellFormed(s) && name in s.embedded
    ensures var r := EmbeddedDoc(s, map[], name);
      r.Ok? && (r.value.VRecord? || r.value.VArray? || r.value.VObject?)
    ensures Lower(s.embedded[name]) == "class" ==> EmbeddedDoc(s, map[], name).value.VRecord?
    ensures Lower("ARRAY") == "array" && Lower("Class") == "class"
  {
  }

  /**
   * `model(class)`: the class to instantiate. An existing class is used as
   * given; a missing or empty name (equal to null) means the called class;
   * anything else raises.
   */
  function ModelFor(classes: set<string>, requested: Option<string>, called: string): (r: Result<string>)
    ensures requested.Some? && requested.value in classes ==> r == Ok(requested.value)
    ensures (requested.None? || (requested.value == "" && "" !in classes)) ==> r == Ok(called)
    ensures r.Err? <==> requested.Some? && requested.value !in classes && requested.value != ""
    ensures r.Ok? ==> r.value == called || r.value in classes
  {
    if requested.Some? && requested.value in classes then Ok(requested.value)
    else if requested.None? || requested.value == "" then Ok(called)
    else Err(NoSuchClass)
  }
}
