/** Injecting ontology violations, and the proof that the judge catches every one. */
module Violations {
  import opened Sequences
  import opened Ordering
  import opened Strings
  import opened GraphModels
  import opened Judge
  import opened Selection
  import opened Dropout
  import opened Rewiring

  const NOT_A_CHOICE := "__not_a_choice__"
  const NOT_THIS_DATATYPE := "__not_this_datatype__"
  const MISSING_ENDPOINT := "__missing_endpoint__"
  const VIOLATION_SUFFIX := "__violation"

  // Nodes

  /** A value just outside the declared range, when a numeric bound allows one. */
  function RangeViolation(p: PropertySpec): Value {
    match Get(p.constraints, "max")
    case Int(hi) => Int(hi + 1000)
    case Float(hi) => Float(hi + 1000.0)
    case _ =>
      match Get(p.constraints, "min")
      case Int(lo) => Int(lo - 1000)
      case Float(lo) => Float(lo - 1000.0)
      case _ => Null
  }

  function DatatypeViolation(p: PropertySpec): Value {
    var dt := Lower(p.datatyp);
    if dt == "integer" || dt == "float" || dt == "boolean" then Str(NOT_THIS_DATATYPE)
    else if dt == "string" || dt == "datetime" then Int(1234567)
    else Null
  }

  predicate HasRange(p: PropertySpec) { !RangeViolation(p).Null? }

  predicate HasChoices(p: PropertySpec) {
    var choices := Get(p.constraints, "choices");
    choices.List? && |choices.items| > 0
  }

  predicate IsRequired(p: PropertySpec) { !p.nullable }

  predicate HasDatatype(p: PropertySpec) { !DatatypeViolation(p).Null? }

  function NonPii(ps: seq<PropertySpec>): seq<PropertySpec> {
    if |ps| == 0 then []
    else NonPii(ps[..|ps| - 1]) + (if IsPii(ps[|ps| - 1]) then [] else [ps[|ps| - 1]])
  }

  /** The properties that may be corrupted, by name. */
  function Candidates(nt: NodeType): seq<PropertySpec> {
    NonPii(SortBy(nt.properties, PropertyName, StrLe))
  }

  function FirstThat(ps: seq<PropertySpec>, test: PropertySpec -> bool): Option<PropertySpec> {
    if |ps| == 0 then None else if test(ps[0]) then Some(ps[0]) else FirstThat(ps[1..], test)
  }

  function SetProperty(n: Node, p: PropertySpec, v: Value): Node {
    n.(properties := n.properties[p.name := v])
  }

  function Retyped(n: Node): Node { n.(typ := n.typ + VIOLATION_SUFFIX) }

  /** `_violate_node`: out of range, else a bad choice, a missing value, a wrong datatype, at last a foreign type. */
  function ViolateNode(ont: Ontology, n: Node): (r: Node)
    ensures r.id == n.id
  {
    var nt := ont.NodeTypeNamed(n.typ);
    if nt.None? then Retyped(n)
    else
      var ps := Candidates(nt.value);
      var range := FirstThat(ps, HasRange);
      if range.Some? then SetProperty(n, range.value, RangeViolation(range.value))
      else
        var choice := FirstThat(ps, HasChoices);
        if choice.Some? then SetProperty(n, choice.value, Str(NOT_A_CHOICE))
        else
          var required := FirstThat(ps, IsRequired);
          if required.Some? then n.(properties := n.properties - {required.value.name})
          else
            var typed := FirstThat(ps, HasDatatype);
            if typed.Some? then SetProperty(n, typed.value, DatatypeViolation(typed.value))
            else Retyped(n)
  }

  lemma {:induction false} FirstThatFinds(ps: seq<PropertySpec>, test: PropertySpec -> bool)
    ensures FirstThat(ps, test).Some? ==> FirstThat(ps, test).value in ps && test(FirstThat(ps, test).value)
  {
    if |ps| > 0 { FirstThatFinds(ps[1..], test); }
  }

  lemma {:induction false} NonPiiMember(ps: seq<PropertySpec>, p: PropertySpec)
    ensures p in NonPii(ps) <==> p in ps && !IsPii(p)
  {
    hide IsPii;
    if |ps| > 0 {
      NonPiiMember(ps[..|ps| - 1], p);
      assert ps == ps[..|ps| - 1] + [ps[|ps| - 1]];
    }
  }

  lemma CandidateDeclared(nt: NodeType, test: PropertySpec -> bool)
    ensures var p := FirstThat(Candidates(nt), test);
      p.Some? ==> p.value in nt.properties && !IsPii(p.value) && test(p.value)
  {
    hide IsPii, NonPii, SortBy;
    var p := FirstThat(Candidates(nt), test);
    FirstThatFinds(Candidates(nt), test);
    if p.Some? {
      NonPiiMember(SortBy(nt.properties, PropertyName, StrLe), p.value);
      SortMember(nt.properties, PropertyName, StrLe, p.value);
    }
  }

  // Which property is corrupted, and how

  lemma {:induction false} FirstThatPush(ps: seq<PropertySpec>, p: PropertySpec, test: PropertySpec -> bool)
    ensures FirstThat(ps + [p], test)
         == if FirstThat(ps, test).Some? then FirstThat(ps, test) else if test(p) then Some(p) else None
  {
    if |ps| > 0 {
      FirstThatPush(ps[1..], p, test);
      assert (ps + [p])[1..] == ps[1..] + [p];
    } else {
      assert (ps + [p])[1..] == [];
    }
  }

  /** Filtering first does not change what is found. */
  lemma {:induction false} FirstThatFiltered(ps: seq<PropertySpec>, keep: PropertySpec -> bool,
                                             test: PropertySpec -> bool)
    requires forall p :: test(p) ==> keep(p)
    ensures FirstThat(Filter(ps, keep), test) == FirstThat(ps, test)
  {
    if |ps| > 0 {
      var front, last := ps[..|ps| - 1], ps[|ps| - 1];
      FirstThatFiltered(front, keep, test);
      FirstThatPush(front, last, test);
      FirstThatPush(Filter(front, keep), last, test);
      assert ps == front + [last];
      assert Filter(front, keep) + [] == Filter(front, keep);
    }
  }

  lemma {:induction false} FirstThatAt(ps: seq<PropertySpec>, test: PropertySpec -> bool) returns (i: nat)
    requires FirstThat(ps, test).Some?
    ensures i < |ps| && ps[i] == FirstThat(ps, test).value && test(ps[i])
    ensures forall j :: 0 <= j < i ==> !test(ps[j])
  {
    if test(ps[0]) {
      i := 0;
    } else {
      var k := FirstThatAt(ps[1..], test);
      i := k + 1;
      assert forall j :: 1 <= j < i ==> ps[j] == ps[1..][j - 1];
    }
  }

  lemma {:induction false} FirstThatNone(ps: seq<PropertySpec>, test: PropertySpec -> bool)
    ensures FirstThat(ps, test).None? <==> forall p :: p in ps ==> !test(p)
  {
    if |ps| > 0 {
      FirstThatNone(ps[1..], test);
      assert ps == [ps[0]] + ps[1..];
    }
  }

  ghost function NotPiiAnd(test: PropertySpec -> bool): PropertySpec -> bool {
    (p: PropertySpec) => !IsPii(p) && test(p)
  }

  ghost function NamedAnd(name: string, test: PropertySpec -> bool): PropertySpec -> bool {
    (p: PropertySpec) => PropertyName(p) == name && test(p)
  }

  lemma {:induction false} NonPiiFirst(ps: seq<PropertySpec>, test: PropertySpec -> bool)
    ensures FirstThat(NonPii(ps), test) == FirstThat(ps, NotPiiAnd(test))
  {
    hide IsPii;
    if |ps| > 0 {
      var front, last := ps[..|ps| - 1], ps[|ps| - 1];
      NonPiiFirst(front, test);
      FirstThatPush(front, last, NotPiiAnd(test));
      FirstThatPush(NonPii(front), last, test);
      assert ps == front + [last];
      assert NonPii(front) + [] == NonPii(front);
    }
  }

  /** Of the properties that satisfy a test, the first declared one with the least name. */
  ghost predicate LeastNamed(ps: seq<PropertySpec>, test: PropertySpec -> bool, p: PropertySpec) {
    && test(p)
    && (forall q :: q in ps && test(q) ==> StrLe(p.name, q.name))
    && exists i :: 0 <= i < |ps| && ps[i] == p && forall j :: 0 <= j < i && test(ps[j]) ==> ps[j].name != p.name
  }

  lemma SortedFirstLeast(ps: seq<PropertySpec>, test: PropertySpec -> bool, p: PropertySpec)
    requires FirstThat(SortBy(ps, PropertyName, StrLe), test) == Some(p)
    ensures test(p) && forall q :: q in ps && test(q) ==> StrLe(p.name, q.name)
  {
    hide SortBy, StrLe;
    var sorted := SortBy(ps, PropertyName, StrLe);
    StrLeIsTotalOrder();
    SortIsSorted(ps, PropertyName, StrLe);
    var f := FirstThatAt(sorted, test);
    forall q | q in ps && test(q) ensures StrLe(p.name, q.name) {
      SortMember(ps, PropertyName, StrLe, q);
      var g :| 0 <= g < |sorted| && sorted[g] == q;
      if f == g {
        StrLeTotal(p.name, q.name);
      } else {
        assert StrLe(PropertyName(sorted[f]), PropertyName(sorted[g]));
      }
    }
  }

  lemma SortedFirstDeclared(ps: seq<PropertySpec>, test: PropertySpec -> bool, p: PropertySpec) returns (i: nat)
    requires FirstThat(SortBy(ps, PropertyName, StrLe), test) == Some(p)
    ensures i < |ps| && ps[i] == p && forall j :: 0 <= j < i && test(ps[j]) ==> ps[j].name != p.name
  {
    hide SortBy, StrLe;
    var sorted := SortBy(ps, PropertyName, StrLe);
    var named := NamedAnd(p.name, test);
    var bears := Bears(PropertyName, p.name);
    StrLeIsTotalOrder();
    SortStable(ps, PropertyName, StrLe, p.name);
    FirstThatFiltered(ps, bears, named);
    FirstThatFiltered(sorted, bears, named);
    FirstNarrowed(sorted, test, p);
    i := FirstThatAt(ps, named);
    assert forall j :: 0 <= j < i ==> !named(ps[j]);
  }

  lemma {:induction false} FirstNarrowed(ps: seq<PropertySpec>, test: PropertySpec -> bool, p: PropertySpec)
    requires FirstThat(ps, test) == Some(p)
    ensures FirstThat(ps, NamedAnd(p.name, test)) == Some(p)
  {
    if !test(ps[0]) {
      FirstNarrowed(ps[1..], test, p);
    }
  }

  lemma ChosenLeast(nt: NodeType, test: PropertySpec -> bool)
    ensures var p := FirstThat(Candidates(nt), test);
      && (p.Some? ==> LeastNamed(nt.properties, NotPiiAnd(test), p.value))
      && (p.None? <==> forall q :: q in nt.properties ==> !NotPiiAnd(test)(q))
  {
    hide NonPii, SortBy, StrLe, NotPiiAnd;
    var ps, good := nt.properties, NotPiiAnd(test);
    var sorted := SortBy(ps, PropertyName, StrLe);
    NonPiiFirst(sorted, test);
    var p := FirstThat(Candidates(nt), test);
    if p.Some? {
      SortedFirstLeast(ps, good, p.value);
      var i := SortedFirstDeclared(ps, good, p.value);
    }
    FirstThatNone(sorted, good);
    forall q ensures q in sorted <==> q in ps { SortMember(ps, PropertyName, StrLe, q); }
  }

  // The ladder

  datatype Kind = OutOfRange | BadChoice | Missing | WrongDatatype

  /** The property can be corrupted in this way. */
  ghost predicate Allows(kind: Kind, p: PropertySpec) {
    var hi, lo := Get(p.constraints, "max"), Get(p.constraints, "min");
    match kind
    case OutOfRange => hi.Int? || hi.Float? || lo.Int? || lo.Float?
    case BadChoice => Get(p.constraints, "choices").List? && Get(p.constraints, "choices").items != []
    case Missing => !p.nullable
    case WrongDatatype => Lower(p.datatyp) in ["integer", "float", "boolean", "string", "datetime"]
  }

  ghost function Permits(kind: Kind): PropertySpec -> bool {
    (p: PropertySpec) => !IsPii(p) && Allows(kind, p)
  }

  /** Some property of the type that is not personal data can be corrupted in this way. */
  ghost predicate Possible(nt: NodeType, kind: Kind) {
    exists p :: p in nt.properties && Permits(kind)(p)
  }

  /** A thousand past the upper bound, or below the lower one when only that is a number; of the bound's own type. */
  ghost predicate PastBound(v: Value, p: PropertySpec) {
    var hi, lo := Get(p.constraints, "max"), Get(p.constraints, "min");
    if hi.Int? || hi.Float? then
      NumberOf(v) == Some(NumberOf(hi).value + 1000.0) && (v.Int? <==> hi.Int?) && !v.Bool?
    else
      lo.Int? || lo.Float?
      ==> NumberOf(v) == Some(NumberOf(lo).value - 1000.0) && (v.Int? <==> lo.Int?) && !v.Bool?
  }

  /** `r` is `n` with the one property corrupted in this way. */
  ghost predicate CorruptedAt(n: Node, r: Node, kind: Kind, p: PropertySpec) {
    && r.id == n.id && r.typ == n.typ
    && (forall k :: k != p.name ==> (k in r.properties <==> k in n.properties))
    && (forall k :: k != p.name && k in n.properties ==> r.properties[k] == n.properties[k])
    && match kind
       case OutOfRange => p.name in r.properties && PastBound(r.properties[p.name], p)
       case BadChoice => p.name in r.properties && r.properties[p.name] == Str("__not_a_choice__")
       case Missing => p.name !in r.properties
       case WrongDatatype => p.name in r.properties && !DatatypeOk(r.properties[p.name], p.datatyp)
  }

  /** The kind falls on the least named property that allows it. */
  ghost predicate Applied(nt: NodeType, n: Node, r: Node, kind: Kind) {
    exists p :: LeastNamed(nt.properties, Permits(kind), p) && CorruptedAt(n, r, kind, p)
  }

  lemma TestsAllow(p: PropertySpec)
    ensures HasRange(p) <==> Allows(OutOfRange, p)
    ensures HasChoices(p) <==> Allows(BadChoice, p)
    ensures IsRequired(p) <==> Allows(Missing, p)
    ensures HasDatatype(p) <==> Allows(WrongDatatype, p)
  {
    hide Lower;
    var choices := Get(p.constraints, "choices");
    assert choices.List? ==> (choices.items != [] <==> |choices.items| > 0);
  }

  lemma Narrowed(p: PropertySpec, test: PropertySpec -> bool, kind: Kind)
    requires test(p) <==> Allows(kind, p)
    ensures NotPiiAnd(test)(p) <==> Permits(kind)(p)
  {
    hide IsPii, Allows;
  }

  lemma SameTests(nt: NodeType, test: PropertySpec -> bool, kind: Kind)
    requires forall p :: NotPiiAnd(test)(p) <==> Permits(kind)(p)
    ensures var p := FirstThat(Candidates(nt), test);
      && (p.Some? <==> Possible(nt, kind))
      && (p.Some? ==> LeastNamed(nt.properties, Permits(kind), p.value))
  {
    hide Candidates, NotPiiAnd, Permits, StrLe;
    ChosenLeast(nt, test);
    var p := FirstThat(Candidates(nt), test);
    if p.Some? {
      assert LeastNamed(nt.properties, NotPiiAnd(test), p.value);
      assert p.value in nt.properties;
    }
  }

  lemma RangeApplied(n: Node, p: PropertySpec)
    requires HasRange(p)
    ensures CorruptedAt(n, SetProperty(n, p, RangeViolation(p)), OutOfRange, p)
  {
  }

  lemma DatatypeApplied(n: Node, p: PropertySpec)
    requires HasDatatype(p)
    ensures CorruptedAt(n, SetProperty(n, p, DatatypeViolation(p)), WrongDatatype, p)
  {
    hide Lower;
  }

  /** The tests of the four kinds, and what each finds. */
  lemma LadderTests(nt: NodeType)
    ensures FirstThat(Candidates(nt), HasRange).Some? <==> Possible(nt, OutOfRange)
    ensures FirstThat(Candidates(nt), HasChoices).Some? <==> Possible(nt, BadChoice)
    ensures FirstThat(Candidates(nt), IsRequired).Some? <==> Possible(nt, Missing)
    ensures FirstThat(Candidates(nt), HasDatatype).Some? <==> Possible(nt, WrongDatatype)
    ensures var p := FirstThat(Candidates(nt), HasRange);
            p.Some? ==> LeastNamed(nt.properties, Permits(OutOfRange), p.value) && HasRange(p.value)
    ensures var p := FirstThat(Candidates(nt), HasChoices);
            p.Some? ==> LeastNamed(nt.properties, Permits(BadChoice), p.value)
    ensures var p := FirstThat(Candidates(nt), IsRequired);
            p.Some? ==> LeastNamed(nt.properties, Permits(Missing), p.value)
    ensures var p := FirstThat(Candidates(nt), HasDatatype);
            p.Some? ==> LeastNamed(nt.properties, Permits(WrongDatatype), p.value) && HasDatatype(p.value)
  {
    hide Candidates, HasRange, HasChoices, IsRequired, HasDatatype, LeastNamed, Possible, Permits, NotPiiAnd, Allows;
    forall p
      ensures NotPiiAnd(HasRange)(p) <==> Permits(OutOfRange)(p)
      ensures NotPiiAnd(HasChoices)(p) <==> Permits(BadChoice)(p)
      ensures NotPiiAnd(IsRequired)(p) <==> Permits(Missing)(p)
      ensures NotPiiAnd(HasDatatype)(p) <==> Permits(WrongDatatype)(p)
    {
      TestsAllow(p);
      Narrowed(p, HasRange, OutOfRange);
      Narrowed(p, HasChoices, BadChoice);
      Narrowed(p, IsRequired, Missing);
      Narrowed(p, HasDatatype, WrongDatatype);
    }
    SameTests(nt, HasRange, OutOfRange);
    SameTests(nt, HasChoices, BadChoice);
    SameTests(nt, IsRequired, Missing);
    SameTests(nt, HasDatatype, WrongDatatype);
    FirstThatFinds(Candidates(nt), HasRange);
    FirstThatFinds(Candidates(nt), HasDatatype);
  }

  /**
   * The ladder: the first possible kind is applied, to the least named property that allows it, and nothing else of the
   * node changes; only when its type is unknown or no kind is possible is the node retyped instead.
   */
  lemma {:induction false} LadderExact(ont: Ontology, n: Node)
    ensures var r, nt := ViolateNode(ont, n), ont.NodeTypeNamed(n.typ);
      && (nt.None? ==> r == n.(typ := n.typ + "__violation"))
      && (nt.Some? ==>
            if Possible(nt.value, OutOfRange) then Applied(nt.value, n, r, OutOfRange)
            else if Possible(nt.value, BadChoice) then Applied(nt.value, n, r, BadChoice)
            else if Possible(nt.value, Missing) then Applied(nt.value, n, r, Missing)
            else if Possible(nt.value, WrongDatatype) then Applied(nt.value, n, r, WrongDatatype)
            else r == n.(typ := n.typ + "__violation"))
  {
    hide Candidates, FirstThat, HasRange, HasChoices, IsRequired, HasDatatype, LeastNamed, Possible, Permits,
         Ontology.NodeTypeNamed, RangeViolation, DatatypeViolation, PastBound, DatatypeOk;
    var nt := ont.NodeTypeNamed(n.typ);
    if nt.Some? {
      LadderTests(nt.value);
      var r := ViolateNode(ont, n);
      var ps := Candidates(nt.value);
      if FirstThat(ps, HasRange).Some? {
        RangeApplied(n, FirstThat(ps, HasRange).value);
      } else if FirstThat(ps, HasChoices).Some? {
        assert CorruptedAt(n, r, BadChoice, FirstThat(ps, HasChoices).value);
      } else if FirstThat(ps, IsRequired).Some? {
        assert CorruptedAt(n, r, Missing, FirstThat(ps, IsRequired).value);
      } else if FirstThat(ps, HasDatatype).Some? {
        DatatypeApplied(n, FirstThat(ps, HasDatatype).value);
      }
    }
  }

  /** So the type changes exactly when it is unknown or offers nothing to corrupt. */
  lemma {:induction false} RetypedIff(ont: Ontology, n: Node)
    ensures ViolateNode(ont, n).typ != n.typ <==>
      var nt := ont.NodeTypeNamed(n.typ);
      nt.None? || forall p, kind :: p in nt.value.properties ==> IsPii(p) || !Allows(kind, p)
  {
    hide ViolateNode, Ontology.NodeTypeNamed, IsPii, Allows, LeastNamed;
    LadderExact(ont, n);
    var nt := ont.NodeTypeNamed(n.typ);
    assert |n.typ + "__violation"| > |n.typ|;
    if nt.Some? {
      if p, kind :| p in nt.value.properties && !IsPii(p) && Allows(kind, p) {
        assert Permits(kind)(p);
        assert Possible(nt.value, kind);
        match kind { case OutOfRange => case BadChoice => case Missing => case WrongDatatype => }
      }
    }
  }

  // Each kind of corruption fails the property check

  lemma RangeFails(n: Node, p: PropertySpec)
    requires HasRange(p)
    ensures !PropertyPasses(SetProperty(n, p, RangeViolation(p)), p)
  {
    hide ValueIn, DatatypeOk;
  }

  lemma ChoiceFails(n: Node, p: PropertySpec)
    requires HasChoices(p) && !ValueIn(Str(NOT_A_CHOICE), Get(p.constraints, "choices").items)
    ensures !PropertyPasses(SetProperty(n, p, Str(NOT_A_CHOICE)), p)
  {
    hide ValueIn, DatatypeOk;
  }

  lemma MissingFails(n: Node, p: PropertySpec)
    requires IsRequired(p)
    ensures !PropertyPasses(n.(properties := n.properties - {p.name}), p)
  {
    hide ConstraintsOk, DatatypeOk;
  }

  lemma DatatypeFails(n: Node, p: PropertySpec)
    requires HasDatatype(p)
    ensures !PropertyPasses(SetProperty(n, p, DatatypeViolation(p)), p)
  {
    hide ConstraintsOk, Lower;
  }

  /** The sentinel strings mean nothing to the ontology: no choice list and no type name uses them. */
  ghost predicate SentinelFree(ont: Ontology) {
    && (forall t, p :: t in ont.nodeTypes && p in t.properties && HasChoices(p) ==>
          !ValueIn(Str(NOT_A_CHOICE), Get(p.constraints, "choices").items))
    && (forall t: NodeType, s: string :: t in ont.nodeTypes ==> t.name != s + VIOLATION_SUFFIX)
  }

  /** What corruption did: a foreign type, or one failing property that agrees with the original elsewhere. */
  ghost predicate Corrupted(ont: Ontology, n: Node, r: Node) {
    var nt := ont.NodeTypeNamed(n.typ);
    || (r == Retyped(n) && ont.NodeTypeNamed(r.typ).None?)
    || (nt.Some? && r.typ == n.typ &&
        exists p :: p in nt.value.properties && !PropertyPasses(r, p)
                 && forall k :: k != p.name ==> Get(r.properties, k) == Get(n.properties, k))
  }

  lemma ViolateNodeCorrupts(ont: Ontology, n: Node)
    requires SentinelFree(ont)
    ensures Corrupted(ont, n, ViolateNode(ont, n))
  {
    hide PropertyPasses, Candidates, FirstThat, HasRange, HasChoices, HasDatatype, IsPii, FirstNamed, DatatypeViolation,
         RangeViolation, ValueIn;
    var nt := ont.NodeTypeNamed(n.typ);
    FirstNamedFinds(ont.nodeTypes, NodeTypeNameOf, n.typ);
    FirstNamedFinds(ont.nodeTypes, NodeTypeNameOf, Retyped(n).typ);
    if nt.Some? {
      var ps := Candidates(nt.value);
      CandidateDeclared(nt.value, HasRange);
      CandidateDeclared(nt.value, HasChoices);
      CandidateDeclared(nt.value, IsRequired);
      CandidateDeclared(nt.value, HasDatatype);
      if FirstThat(ps, HasRange).Some? {
        RangeFails(n, FirstThat(ps, HasRange).value);
      } else if FirstThat(ps, HasChoices).Some? {
        ChoiceFails(n, FirstThat(ps, HasChoices).value);
      } else if FirstThat(ps, IsRequired).Some? {
        MissingFails(n, FirstThat(ps, IsRequired).value);
      } else if FirstThat(ps, HasDatatype).Some? {
        DatatypeFails(n, FirstThat(ps, HasDatatype).value);
      }
    }
  }

  lemma OtherName(nt: NodeType, p: PropertySpec, q: PropertySpec)
    requires DistinctKeys(nt.properties, PropertyName)
    requires p in nt.properties && q in nt.properties && p != q
    ensures p.name != q.name
  {
    var i :| 0 <= i < |nt.properties| && nt.properties[i] == p;
    var j :| 0 <= j < |nt.properties| && nt.properties[j] == q;
    assert PropertyName(nt.properties[i]) != PropertyName(nt.properties[j]);
  }

  /** Corruption never writes or removes a personal-data property. */
  lemma PiiUntouched(ont: Ontology, n: Node, nt: NodeType, p: PropertySpec)
    requires ont.NodeTypeNamed(n.typ) == Some(nt) && DistinctKeys(nt.properties, PropertyName)
    requires p in nt.properties && IsPii(p)
    ensures Get(ViolateNode(ont, n).properties, p.name) == Get(n.properties, p.name)
  {
    hide Candidates, FirstThat, HasRange, HasChoices, HasDatatype, IsRequired, IsPii, Ontology.NodeTypeNamed,
         DatatypeViolation, RangeViolation, DistinctKeys;
    var ps := Candidates(nt);
    var found :=
      [FirstThat(ps, HasRange), FirstThat(ps, HasChoices), FirstThat(ps, IsRequired), FirstThat(ps, HasDatatype)];
    CandidateDeclared(nt, HasRange);
    CandidateDeclared(nt, HasChoices);
    CandidateDeclared(nt, IsRequired);
    CandidateDeclared(nt, HasDatatype);
    forall t | 0 <= t < 4 && found[t].Some? ensures found[t].value.name != p.name {
      OtherName(nt, p, found[t].value);
    }
    assert found[0] == FirstThat(ps, HasRange) && found[1] == FirstThat(ps, HasChoices);
    assert found[2] == FirstThat(ps, IsRequired) && found[3] == FirstThat(ps, HasDatatype);
  }

  /** The violations the judge charges to a node. */
  function NodeFaults(ont: Ontology, n: Node): nat {
    NodeTally(ont, n).nodeTypeViolations + NodeTally(ont, n).propertyViolations
  }

  lemma {:induction false} SomeFailure(n: Node, ps: seq<PropertySpec>, j: nat, k: nat)
    requires j < k <= |ps| && !PropertyPasses(n, ps[j])
    ensures PropertiesTally(n, ps, k).propertyViolations >= 1
  {
    hide PropertyPasses;
    if j < k - 1 { SomeFailure(n, ps, j, k - 1); }
  }

  lemma {:induction false} OneFailure(n: Node, ps: seq<PropertySpec>, j: nat, k: nat)
    requires j < |ps| && k <= |ps| && !PropertyPasses(n, ps[j])
    requires forall i :: 0 <= i < |ps| && i != j ==> PropertyPasses(n, ps[i])
    ensures PropertiesTally(n, ps, k).propertyViolations == if j < k then 1 else 0
  {
    hide PropertyPasses;
    if k > 0 { OneFailure(n, ps, j, k - 1); }
  }

  lemma {:induction false} AllPass(n: Node, ps: seq<PropertySpec>, k: nat)
    requires k <= |ps|
    ensures PropertiesTally(n, ps, k).propertyViolations == 0 <==> forall i :: 0 <= i < k ==> PropertyPasses(n, ps[i])
  {
    hide PropertyPasses;
    if k > 0 { AllPass(n, ps, k - 1); }
  }

  ghost predicate UniqueProperties(ont: Ontology) {
    forall t :: t in ont.nodeTypes ==> DistinctKeys(t.properties, PropertyName)
  }

  /** A corrupted node is always charged, and a conforming one exactly once. */
  lemma CorruptionCharged(ont: Ontology, n: Node, r: Node)
    requires Corrupted(ont, n, r)
    ensures NodeFaults(ont, r) >= 1
    ensures NodeFaults(ont, n) == 0 && UniqueProperties(ont) ==> NodeFaults(ont, r) == 1
  {
    hide PropertyPasses, PropertiesTally, FirstNamed;
    FirstNamedFinds(ont.nodeTypes, NodeTypeNameOf, n.typ);
    var nt := ont.NodeTypeNamed(n.typ);
    if !(r == Retyped(n) && ont.NodeTypeNamed(r.typ).None?) {
      var ps := nt.value.properties;
      var p :| p in ps && !PropertyPasses(r, p)
               && forall k :: k != p.name ==> Get(r.properties, k) == Get(n.properties, k);
      var j :| 0 <= j < |ps| && ps[j] == p;
      SomeFailure(r, ps, j, |ps|);
      PropertiesBalance(n, ps, |ps|);
      PropertiesBalance(r, ps, |ps|);
      if NodeFaults(ont, n) == 0 && UniqueProperties(ont) {
        AllPass(n, ps, |ps|);
        forall i | 0 <= i < |ps| && i != j ensures PropertyPasses(r, ps[i]) {
          assert PropertyName(ps[i]) != PropertyName(ps[j]);
          SameReading(n, r, ps[i]);
        }
        OneFailure(r, ps, j, |ps|);
      }
    }
  }

  lemma SameReading(n: Node, r: Node, p: PropertySpec)
    requires Get(n.properties, p.name) == Get(r.properties, p.name)
    ensures PropertyPasses(n, p) == PropertyPasses(r, p)
  {
    hide DatatypeOk, ConstraintsOk;
  }

  // The node stage

  function ViolatedNodes(ont: Ontology, nodes: seq<Node>, picked: set<nat>): (out: seq<Node>)
    ensures |out| == |nodes|
    ensures forall i :: 0 <= i < |nodes| ==> out[i] == if i in picked then ViolateNode(ont, nodes[i]) else nodes[i]
  {
    seq(|nodes|, i requires 0 <= i < |nodes| => if i in picked then ViolateNode(ont, nodes[i]) else nodes[i])
  }

  ghost function Below(picked: set<nat>, k: nat): set<nat> { set i | i in picked && i < k }

  lemma BelowNext(picked: set<nat>, k: nat)
    ensures |Below(picked, k + 1)| == |Below(picked, k)| + (if k in picked then 1 else 0)
    ensures |Below(picked, 0)| == 0
  {
    assert Below(picked, k + 1) == if k in picked then Below(picked, k) + {k} else Below(picked, k);
    assert Below(picked, 0) == {};
  }

  /** The faults of the first `k` nodes. */
  function Faults(ont: Ontology, nodes: seq<Node>, k: nat): nat
    requires k <= |nodes|
  {
    NodesTally(ont, nodes, k).nodeTypeViolations + NodesTally(ont, nodes, k).propertyViolations
  }

  lemma FaultsStep(ont: Ontology, nodes: seq<Node>, k: nat)
    requires 0 < k <= |nodes|
    ensures Faults(ont, nodes, k) == Faults(ont, nodes, k - 1) + NodeFaults(ont, nodes[k - 1])
  {
    hide NodeTally;
  }

  lemma {:induction false} NodeStageCount(ont: Ontology, nodes: seq<Node>, picked: set<nat>, k: nat)
    requires SentinelFree(ont) && k <= |nodes|
    ensures Faults(ont, ViolatedNodes(ont, nodes, picked), k) >= |Below(picked, k)|
    ensures Faults(ont, nodes, k) == 0 && UniqueProperties(ont) ==>
      Faults(ont, ViolatedNodes(ont, nodes, picked), k) == |Below(picked, k)|
  {
    hide ViolateNode, NodeFaults, Faults, SentinelFree, UniqueProperties, Corrupted, Below;
    if k > 0 {
      NodeStageCount(ont, nodes, picked, k - 1);
      BelowNext(picked, k - 1);
      var out := ViolatedNodes(ont, nodes, picked);
      FaultsStep(ont, nodes, k);
      FaultsStep(ont, out, k);
      if k - 1 in picked {
        ViolateNodeCorrupts(ont, nodes[k - 1]);
        CorruptionCharged(ont, nodes[k - 1], out[k - 1]);
      }
    } else {
      BelowNext(picked, 0);
      NoFaultsYet(ont, nodes);
      NoFaultsYet(ont, ViolatedNodes(ont, nodes, picked));
    }
  }

  lemma NoFaultsYet(ont: Ontology, nodes: seq<Node>)
    ensures Faults(ont, nodes, 0) == 0
  {
  }

  /** The node stage treats a node the same wherever it stands in the list. */
  lemma NodeStageIgnoresOrder(ont: Ontology, nodes: seq<Node>, nodes': seq<Node>, chosen: seq<nat>, i: nat, j: nat)
    requires multiset(nodes) == multiset(nodes') && UniqueIds(nodes)
    requires forall c :: 0 <= c < |chosen| ==> chosen[c] < |nodes|
    requires i < |nodes| && j < |nodes'| && nodes[i].id == nodes'[j].id
    ensures |nodes| == |nodes'|
    ensures ViolatedNodes(ont, nodes, Selected(NodeIds(nodes), chosen))[i]
         == ViolatedNodes(ont, nodes', Selected(NodeIds(nodes'), chosen))[j]
  {
    hide ViolateNode, Selected;
    SameMultisetMembers(nodes, nodes');
    DistinctRearranged(nodes, nodes', NodeId);
    MappedMultiset(nodes, nodes', NodeId);
    assert nodes'[j] in nodes';
    var k :| 0 <= k < |nodes| && nodes[k] == nodes'[j];
    assert NodeId(nodes[k]) == NodeId(nodes[i]);
    SelectionIgnoresOrder(NodeIds(nodes), NodeIds(nodes'), chosen, i, j);
  }

  // Edges

  function WrongIds(nodes: seq<Node>, typ: string): seq<string> {
    if |nodes| == 0 then []
    else WrongIds(nodes[..|nodes| - 1], typ) + (if nodes[|nodes| - 1].typ != typ then [nodes[|nodes| - 1].id] else [])
  }

  /** The sorted ids an edge may be repointed to, empty when its type is unknown. */
  function WrongTargets(ont: Ontology, e: Edge, nodes: seq<Node>): seq<string> {
    var et := ont.EdgeTypeNamed(e.typ);
    if et.None? then [] else SortStrings(WrongIds(nodes, et.value.targetType))
  }

  /** `_violate_edge`: repoint to a node of the wrong type, or to no node at all. */
  function ViolateEdge(ont: Ontology, e: Edge, nodes: seq<Node>, draw: nat): Edge {
    var wrong := WrongTargets(ont, e, nodes);
    e.(target := if |wrong| > 0 then wrong[draw % |wrong|] else MISSING_ENDPOINT)
  }

  lemma {:induction false} WrongMember(nodes: seq<Node>, typ: string, id: string)
    ensures id in WrongIds(nodes, typ) <==> exists i :: 0 <= i < |nodes| && nodes[i].id == id && nodes[i].typ != typ
  {
    if |nodes| > 0 {
      var n := |nodes| - 1;
      WrongMember(nodes[..n], typ, id);
      if i :| 0 <= i < |nodes| && nodes[i].id == id && nodes[i].typ != typ {
        if i < n { assert nodes[..n][i] == nodes[i]; }
      }
    }
  }

  /** A repointed edge always breaks its relation's rule. */
  lemma {:induction false} ViolatedEdgeFails(ont: Ontology, e: Edge, nodes: seq<Node>, draw: nat)
    requires UniqueIds(nodes) && !HasId(nodes, MISSING_ENDPOINT)
    ensures !EdgePasses(ont, NodesById(nodes), ViolateEdge(ont, e, nodes, draw))
  {
    hide Ontology.EdgeTypeNamed, SortBy, WrongIds, NodesById;
    DictionariesAgree(nodes);
    var et := ont.EdgeTypeNamed(e.typ);
    if et.Some? {
      var wrong := WrongTargets(ont, e, nodes);
      if |wrong| > 0 {
        var id := wrong[draw % |wrong|];
        SortMember(WrongIds(nodes, et.value.targetType), Identity, StrLe, id);
        WrongMember(nodes, et.value.targetType, id);
        var i :| 0 <= i < |nodes| && nodes[i].id == id && nodes[i].typ != et.value.targetType;
        LookupOfUnique(nodes, i);
      }
    }
  }

  /** How many integer draws the edges before position `k` consume. */
  function EdgeTurn(ont: Ontology, edges: seq<Edge>, nodes: seq<Node>, picked: set<nat>, k: nat): nat
    requires k <= |edges|
  {
    if k == 0 then 0
    else EdgeTurn(ont, edges, nodes, picked, k - 1) +
         (if k - 1 in picked && |WrongTargets(ont, edges[k - 1], nodes)| > 0 then 1 else 0)
  }

  /** The targets an edge may be repointed to are the ids of nodes that its relation does not allow there, sorted. */
  lemma {:induction false} WrongTargetsExact(ont: Ontology, e: Edge, nodes: seq<Node>, id: string)
    ensures id in WrongTargets(ont, e, nodes) <==>
            exists i, et :: ont.EdgeTypeNamed(e.typ) == Some(et) && 0 <= i < |nodes| && nodes[i].id == id
                            && nodes[i].typ != et.targetType
    ensures SortedBy(WrongTargets(ont, e, nodes), Identity, StrLe)
  {
    hide Ontology.EdgeTypeNamed, WrongIds, SortBy, StrLe;
    var et := ont.EdgeTypeNamed(e.typ);
    if et.Some? {
      var wrong := WrongIds(nodes, et.value.targetType);
      SortMember(wrong, Identity, StrLe, id);
      WrongMember(nodes, et.value.targetType, id);
      StrLeIsTotalOrder();
      SortIsSorted(wrong, Identity, StrLe);
    }
  }

  /** One draw for each selected edge that has a wrong target. */
  lemma {:induction false} EdgeTurnCounts(ont: Ontology, edges: seq<Edge>, nodes: seq<Node>, picked: set<nat>, k: nat)
    requires k <= |edges|
    ensures EdgeTurn(ont, edges, nodes, picked, k)
         == |set p | 0 <= p < k && p in picked && WrongTargets(ont, edges[p], nodes) != []|
  {
    hide WrongTargets;
    var upTo := set p | 0 <= p < k && p in picked && WrongTargets(ont, edges[p], nodes) != [];
    if k > 0 {
      EdgeTurnCounts(ont, edges, nodes, picked, k - 1);
      var before := set p | 0 <= p < k - 1 && p in picked && WrongTargets(ont, edges[p], nodes) != [];
      assert upTo
          == if k - 1 in picked && WrongTargets(ont, edges[k - 1], nodes) != [] then before + {k - 1} else before;
    } else {
      assert upTo == {};
    }
  }

  function ViolatedEdges(ont: Ontology, edges: seq<Edge>, nodes: seq<Node>, picked: set<nat>,
                         raw: nat -> nat): (out: seq<Edge>)
    ensures |out| == |edges|
    ensures forall i :: 0 <= i < |edges| ==> out[i] == ViolatedEdge(ont, edges, nodes, picked, raw, i)
  {
    seq(|edges|, i requires 0 <= i < |edges| => ViolatedEdge(ont, edges, nodes, picked, raw, i))
  }

  /** What the edge stage makes of position `i`; `raw(t)` is the word behind the t-th integer draw. */
  function ViolatedEdge(ont: Ontology, edges: seq<Edge>, nodes: seq<Node>, picked: set<nat>, raw: nat -> nat,
                        i: nat): Edge
    requires i < |edges|
  {
    if i in picked then ViolateEdge(ont, edges[i], nodes, raw(EdgeTurn(ont, edges, nodes, picked, i))) else edges[i]
  }

  lemma ViolatedAt(ont: Ontology, edges: seq<Edge>, nodes: seq<Node>, picked: set<nat>, raw: nat -> nat, i: nat)
    requires i < |edges|
    ensures i in picked ==>
      ViolatedEdge(ont, edges, nodes, picked, raw, i)
      == ViolateEdge(ont, edges[i], nodes, raw(EdgeTurn(ont, edges, nodes, picked, i)))
    ensures i !in picked ==> ViolatedEdge(ont, edges, nodes, picked, raw, i) == edges[i]
  {
    hide ViolateEdge, EdgeTurn;
  }

  lemma RepointedTo(ont: Ontology, edges: seq<Edge>, nodes: seq<Node>, picked: set<nat>, raw: nat -> nat, i: nat)
    requires i < |edges|
    ensures var wrong := WrongTargets(ont, edges[i], nodes);
            && (i in picked && |wrong| > 0 ==>
                  ViolatedEdge(ont, edges, nodes, picked, raw, i)
                    == edges[i].(target := wrong[raw(EdgeTurn(ont, edges, nodes, picked, i)) % |wrong|]))
            && (i in picked && |wrong| == 0 ==>
                  ViolatedEdge(ont, edges, nodes, picked, raw, i) == edges[i].(target := MISSING_ENDPOINT))
            && (i !in picked ==> ViolatedEdge(ont, edges, nodes, picked, raw, i) == edges[i])
  {
    hide WrongTargets, EdgeTurn;
  }

  lemma {:induction false} WrongIdsDistinct(nodes: seq<Node>, typ: string)
    requires UniqueIds(nodes)
    ensures NoDuplicates(WrongIds(nodes, typ))
  {
    if |nodes| > 0 {
      var n := |nodes| - 1;
      var front := WrongIds(nodes[..n], typ);
      WrongIdsDistinct(nodes[..n], typ);
      forall k | 0 <= k < |front| ensures front[k] != nodes[n].id {
        WrongMember(nodes[..n], typ, front[k]);
        var i :| 0 <= i < n && nodes[..n][i].id == front[k];
        assert NodeId(nodes[i]) != NodeId(nodes[n]);
      }
    }
  }

  lemma WrongTargetsDistinct(ont: Ontology, e: Edge, nodes: seq<Node>)
    requires UniqueIds(nodes)
    ensures NoDuplicates(WrongTargets(ont, e, nodes))
  {
    hide Ontology.EdgeTypeNamed, SortBy;
    var et := ont.EdgeTypeNamed(e.typ);
    if et.Some? {
      var wrong := WrongIds(nodes, et.value.targetType);
      WrongIdsDistinct(nodes, et.value.targetType);
      SortMultiset(wrong, Identity, StrLe);
      PermutationNoDuplicates(wrong, SortStrings(wrong));
    }
  }

  lemma EdgeTurnsMatter(ont: Ontology, es: seq<Edge>, fs: seq<Edge>, nodes: seq<Node>, picked: set<nat>,
                        picked': set<nat>,
                        i: nat, j: nat)
    requires i < |es| && j < |fs| && es[i] == fs[j] && i in picked && j in picked'
    requires UniqueIds(nodes) && |WrongTargets(ont, es[i], nodes)| > 1
    requires EdgeTurn(ont, es, nodes, picked, i) != EdgeTurn(ont, fs, nodes, picked', j)
    ensures var raw := Marking(EdgeTurn(ont, es, nodes, picked, i));
            ViolatedEdge(ont, es, nodes, picked, raw, i) != ViolatedEdge(ont, fs, nodes, picked', raw, j)
  {
    hide EdgeTurn, WrongTargets, ViolatedEdge, DistinctKeys;
    var raw := Marking(EdgeTurn(ont, es, nodes, picked, i));
    var wrong := WrongTargets(ont, es[i], nodes);
    WrongTargetsDistinct(ont, es[i], nodes);
    RepointedTo(ont, es, nodes, picked, raw, i);
    RepointedTo(ont, fs, nodes, picked', raw, j);
    assert 1 % |wrong| == 1 && 0 % |wrong| == 0 && wrong[0] != wrong[1];
  }

  lemma EdgeTurnsIrrelevant(ont: Ontology, es: seq<Edge>, fs: seq<Edge>, nodes: seq<Node>, picked: set<nat>,
                            picked': set<nat>, raw: nat -> nat, i: nat, j: nat)
    requires i < |es| && j < |fs| && es[i] == fs[j] && (i in picked <==> j in picked')
    requires i !in picked || |WrongTargets(ont, es[i], nodes)| <= 1
          || EdgeTurn(ont, es, nodes, picked, i) == EdgeTurn(ont, fs, nodes, picked', j)
    ensures ViolatedEdge(ont, es, nodes, picked, raw, i) == ViolatedEdge(ont, fs, nodes, picked', raw, j)
  {
    hide EdgeTurn, WrongTargets, ViolatedEdge;
    RepointedTo(ont, es, nodes, picked, raw, i);
    RepointedTo(ont, fs, nodes, picked', raw, j);
    assert raw(EdgeTurn(ont, es, nodes, picked, i)) % 1 == 0 && raw(EdgeTurn(ont, fs, nodes, picked', j)) % 1 == 0;
  }

  /** A selected edge with several wrong targets ends differently under two streams. */
  lemma StreamsDiffer(ont: Ontology, es: seq<Edge>, nodes: seq<Node>, picked: set<nat>, i: nat)
    requires i < |es| && i in picked && UniqueIds(nodes) && |WrongTargets(ont, es[i], nodes)| > 1
    ensures var t := EdgeTurn(ont, es, nodes, picked, i);
            ViolatedEdge(ont, es, nodes, picked, Marking(t), i)
              != ViolatedEdge(ont, es, nodes, picked, Marking(t + 1), i)
  {
    hide EdgeTurn, WrongTargets, ViolatedEdge, DistinctKeys;
    var t := EdgeTurn(ont, es, nodes, picked, i);
    var wrong := WrongTargets(ont, es[i], nodes);
    WrongTargetsDistinct(ont, es[i], nodes);
    RepointedTo(ont, es, nodes, picked, Marking(t), i);
    RepointedTo(ont, es, nodes, picked, Marking(t + 1), i);
    assert 1 % |wrong| == 1 && 0 % |wrong| == 0 && wrong[0] != wrong[1];
  }

  lemma UnselectedStays(ont: Ontology, es: seq<Edge>, nodes: seq<Node>, picked: set<nat>, raw: nat -> nat, i: nat)
    requires i < |es| && i !in picked
    ensures ViolatedEdge(ont, es, nodes, picked, raw, i) == es[i]
  {
  }

  /** So selected in one arrangement only, it ends differently there under one of them. */
  lemma OneViolated(ont: Ontology, es: seq<Edge>, fs: seq<Edge>, nodes: seq<Node>, picked: set<nat>, picked': set<nat>,
                    i: nat, j: nat)
    requires i < |es| && j < |fs| && es[i] == fs[j] && !(i in picked <==> j in picked')
    requires UniqueIds(nodes) && |WrongTargets(ont, es[i], nodes)| > 1
    ensures exists raw: nat -> nat ::
              ViolatedEdge(ont, es, nodes, picked, raw, i) != ViolatedEdge(ont, fs, nodes, picked', raw, j)
  {
    hide EdgeTurn, WrongTargets, ViolatedEdge, DistinctKeys, Marking;
    var t := if i in picked then EdgeTurn(ont, es, nodes, picked, i) else EdgeTurn(ont, fs, nodes, picked', j);
    if i in picked {
      StreamsDiffer(ont, es, nodes, picked, i);
      UnselectedStays(ont, fs, nodes, picked', Marking(t), j);
      UnselectedStays(ont, fs, nodes, picked', Marking(t + 1), j);
    } else {
      StreamsDiffer(ont, fs, nodes, picked', j);
      UnselectedStays(ont, es, nodes, picked, Marking(t), i);
      UnselectedStays(ont, es, nodes, picked, Marking(t + 1), i);
    }
  }

  /** With at most one wrong target the draw does not matter. */
  lemma OneOutcome(ont: Ontology, es: seq<Edge>, fs: seq<Edge>, nodes: seq<Node>, picked: set<nat>, picked': set<nat>,
                   raw: nat -> nat, i: nat, j: nat)
    requires i < |es| && j < |fs| && es[i] == fs[j] && !(i in picked <==> j in picked')
    requires |WrongTargets(ont, es[i], nodes)| <= 1
    ensures ViolatedEdge(ont, es, nodes, picked, raw, i) == ViolatedEdge(ont, fs, nodes, picked', raw, j) <==>
            ViolateEdge(ont, es[i], nodes, 0) == es[i]
  {
    hide EdgeTurn, WrongTargets, ViolatedEdge;
    RepointedTo(ont, es, nodes, picked, raw, i);
    RepointedTo(ont, fs, nodes, picked', raw, j);
    assert raw(EdgeTurn(ont, es, nodes, picked, i)) % 1 == 0 && raw(EdgeTurn(ont, fs, nodes, picked', j)) % 1 == 0;
  }

  /** Selected in one arrangement only, an edge ends alike exactly when its one outcome is the edge itself. */
  lemma OneViolatedIff(ont: Ontology, es: seq<Edge>, fs: seq<Edge>, nodes: seq<Node>, picked: set<nat>,
                       picked': set<nat>, i: nat, j: nat)
    requires i < |es| && j < |fs| && es[i] == fs[j] && !(i in picked <==> j in picked') && UniqueIds(nodes)
    ensures (forall raw: nat -> nat ::
               ViolatedEdge(ont, es, nodes, picked, raw, i) == ViolatedEdge(ont, fs, nodes, picked', raw, j)) <==>
            |WrongTargets(ont, es[i], nodes)| <= 1 && ViolateEdge(ont, es[i], nodes, 0) == es[i]
  {
    hide EdgeTurn, WrongTargets, ViolatedEdge, Marking, DistinctKeys, ViolateEdge;
    if |WrongTargets(ont, es[i], nodes)| > 1 {
      OneViolated(ont, es, fs, nodes, picked, picked', i, j);
    } else {
      forall raw: nat -> nat
        ensures ViolatedEdge(ont, es, nodes, picked, raw, i) == ViolatedEdge(ont, fs, nodes, picked', raw, j) <==>
                ViolateEdge(ont, es[i], nodes, 0) == es[i]
      {
        OneOutcome(ont, es, fs, nodes, picked, picked', raw, i, j);
      }
      var raw := Marking(0);
      assert ViolatedEdge(ont, es, nodes, picked, raw, i) == ViolatedEdge(ont, fs, nodes, picked', raw, j) <==>
             ViolateEdge(ont, es[i], nodes, 0) == es[i];
    }
  }

  /**
   * The edge stage reads its draws in list order too: over all random streams, an edge ends alike at positions `i` and
   * `j` of two arrangements exactly when it is selected in neither; or in both, with at most one wrong target or in
   * its turn; or in one only, and its one outcome is the edge itself.
   */
  lemma {:induction false} EdgeStageOrderExact(ont: Ontology, es: seq<Edge>, fs: seq<Edge>, nodes: seq<Node>,
                                               picked: set<nat>, picked': set<nat>, i: nat, j: nat)
    requires i < |es| && j < |fs| && es[i] == fs[j]
    requires UniqueIds(nodes)
    ensures (forall raw: nat -> nat ::
               ViolatedEdge(ont, es, nodes, picked, raw, i) == ViolatedEdge(ont, fs, nodes, picked', raw, j)) <==>
            if i in picked <==> j in picked' then
              i !in picked || |WrongTargets(ont, es[i], nodes)| <= 1
              || EdgeTurn(ont, es, nodes, picked, i) == EdgeTurn(ont, fs, nodes, picked', j)
            else |WrongTargets(ont, es[i], nodes)| <= 1 && ViolateEdge(ont, es[i], nodes, 0) == es[i]
  {
    hide EdgeTurn, WrongTargets, ViolatedEdge, Marking, DistinctKeys, ViolateEdge;
    if !(i in picked <==> j in picked') {
      OneViolatedIff(ont, es, fs, nodes, picked, picked', i, j);
    } else if i in picked && |WrongTargets(ont, es[i], nodes)| > 1
       && EdgeTurn(ont, es, nodes, picked, i) != EdgeTurn(ont, fs, nodes, picked', j) {
      EdgeTurnsMatter(ont, es, fs, nodes, picked, picked', i, j);
    } else {
      forall raw: nat -> nat
        ensures ViolatedEdge(ont, es, nodes, picked, raw, i) == ViolatedEdge(ont, fs, nodes, picked', raw, j)
      {
        EdgeTurnsIrrelevant(ont, es, fs, nodes, picked, picked', raw, i, j);
      }
    }
  }

  /** For instance two parallel edges among two people and a place, in either order. */
  lemma {:induction false} EdgeStageDependsOnOrder(ont: Ontology, nodes: seq<Node>, e: Edge, f: Edge)
    requires ont.EdgeTypeNamed("visits") == Some(EdgeType("visits", "Person", "Place", true))
    requires nodes == [Node("a", "Person", map[]), Node("b", "Person", map[]), Node("c", "Place", map[])]
    requires e == Edge("1", "visits", "a", "c", map[]) && f == Edge("2", "visits", "a", "c", map[])
    ensures ViolatedEdge(ont, [e, f], nodes, {0, 1}, Marking(0), 0)
         != ViolatedEdge(ont, [f, e], nodes, {0, 1}, Marking(0), 1)
  {
    hide WrongIds, ViolatedEdge, Marking, Ontology.EdgeTypeNamed, SortBy;
    assert "a"[0] == 'a' && "b"[0] == 'b' && "c"[0] == 'c' && |"Person"| != |"Place"|;
    assert nodes[0].id == "a" && nodes[1].id == "b" && nodes[2].id == "c";
    WrongMember(nodes, "Place", "a");
    WrongMember(nodes, "Place", "b");
    SortMember(WrongIds(nodes, "Place"), Identity, StrLe, "a");
    SortMember(WrongIds(nodes, "Place"), Identity, StrLe, "b");
    TwoMembers(WrongTargets(ont, e, nodes), "a", "b");
    assert |WrongTargets(ont, f, nodes)| > 0;
    PairTurns(ont, e, f, nodes, [e, f], [f, e], {0, 1});
  }

  lemma PairTurns(ont: Ontology, e: Edge, f: Edge, nodes: seq<Node>, es: seq<Edge>, fs: seq<Edge>, picked: set<nat>)
    requires |es| == |fs| == 2 && es[0] == e && es[1] == f && fs[0] == f && fs[1] == e && 0 in picked && 1 in picked
    requires UniqueIds(nodes) && |WrongTargets(ont, e, nodes)| > 1 && |WrongTargets(ont, f, nodes)| > 0
    ensures ViolatedEdge(ont, es, nodes, picked, Marking(0), 0) != ViolatedEdge(ont, fs, nodes, picked, Marking(0), 1)
  {
    hide WrongTargets, ViolatedEdge, Marking, DistinctKeys;
    assert EdgeTurn(ont, es, nodes, picked, 0) == 0;
    assert EdgeTurn(ont, fs, nodes, picked, 1) == EdgeTurn(ont, fs, nodes, picked, 0) + 1;
    EdgeTurnsMatter(ont, es, fs, nodes, picked, picked, 0, 1);
  }

  method ViolateNodes(ont: Ontology, nodes: array<Node>, picked: set<nat>)
    modifies nodes
    ensures nodes[..] == ViolatedNodes(ont, old(nodes[..]), picked)
  {
    hide ViolateNode;
    for i := 0 to nodes.Length
      invariant forall k :: 0 <= k < i ==>
                  nodes[k] == if k in picked then ViolateNode(ont, old(nodes[k])) else old(nodes[k])
      invariant forall k :: i <= k < nodes.Length ==> nodes[k] == old(nodes[k])
    {
      if i in picked { nodes[i] := ViolateNode(ont, nodes[i]); }
    }
  }

  method ViolateEdges(ont: Ontology, edges: array<Edge>, nodes: seq<Node>, picked: set<nat>, raw: nat -> nat)
    modifies edges
    ensures edges[..] == ViolatedEdges(ont, old(edges[..]), nodes, picked, raw)
  {
    hide WrongTargets, ViolateEdge, ViolatedEdge;
    var t := 0;
    ghost var was := edges[..];
    ghost var out := ViolatedEdges(ont, was, nodes, picked, raw);
    for i := 0 to edges.Length
      invariant t == EdgeTurn(ont, was, nodes, picked, i)
      invariant forall k :: 0 <= k < i ==> edges[k] == out[k]
      invariant forall k :: i <= k < edges.Length ==> edges[k] == was[k]
    {
      ViolatedAt(ont, was, nodes, picked, raw, i);
      var e := edges[i];
      if i in picked {
        edges[i] := ViolateEdge(ont, e, nodes, raw(t));
        if |WrongTargets(ont, e, nodes)| > 0 { t := t + 1; }
      }
    }
    assert edges[..] == out;
  }

  /** `_ontology_violation`: nodes first, then edges against the corrupted nodes. */
  method OntologyViolation(ont: Ontology, nodes: array<Node>, edges: array<Edge>, intensity: real,
                           chosenNodes: seq<nat>, chosenEdges: seq<nat>, raw: nat -> nat)
    requires LegalChoice(chosenNodes, Affected(intensity, nodes.Length), nodes.Length)
    requires LegalChoice(chosenEdges, Affected(intensity, edges.Length), edges.Length)
    modifies nodes, edges
    ensures nodes[..] == ViolatedNodes(ont, old(nodes[..]), Selected(NodeIds(old(nodes[..])), chosenNodes))
    ensures edges[..] == ViolatedEdges(ont, old(edges[..]), nodes[..], Selected(Ids(old(edges[..])), chosenEdges), raw)
  {
    hide Selected, ViolateNode, ViolateEdge;
    ViolateNodes(ont, nodes, Selected(NodeIds(nodes[..]), chosenNodes));
    ViolateEdges(ont, edges, nodes[..], Selected(Ids(edges[..]), chosenEdges), raw);
  }

  // The judge on the result

  /** The position takes part in the corruption: selected, or touching a retyped node. */
  ghost function Hit(edges: seq<Edge>, picked: set<nat>, retyped: set<string>): set<nat> {
    set i | 0 <= i < |edges| && (i in picked || edges[i].source in retyped || edges[i].target in retyped)
  }

  /** The ids of the nodes whose type the node stage changed. */
  ghost function RetypedIds(nodes: seq<Node>, out: seq<Node>): set<string>
    requires |nodes| == |out|
  {
    set i | 0 <= i < |nodes| && out[i].typ != nodes[i].typ :: nodes[i].id
  }

  lemma ViolatedIds(ont: Ontology, nodes: seq<Node>, picked: set<nat>)
    requires UniqueIds(nodes)
    ensures var out := ViolatedNodes(ont, nodes, picked);
      && UniqueIds(out) && KeySet(out, NodeId) == KeySet(nodes, NodeId)
      && forall i :: 0 <= i < |nodes| ==> out[i].id == nodes[i].id
  {
    hide ViolateNode;
    var out := ViolatedNodes(ont, nodes, picked);
    forall i, j | 0 <= i < j < |out| ensures NodeId(out[i]) != NodeId(out[j]) {
      assert NodeId(nodes[i]) != NodeId(nodes[j]);
    }
    forall i | 0 <= i < |nodes| ensures NodeId(out[i]) == NodeId(nodes[i]) {}
  }

  /** A conforming edge stays conforming unless an endpoint was retyped. */
  lemma UntouchedEdge(ont: Ontology, nodes: seq<Node>, out: seq<Node>, e: Edge)
    requires UniqueIds(nodes) && UniqueIds(out) && |out| == |nodes|
    requires forall i :: 0 <= i < |nodes| ==> out[i].id == nodes[i].id
    requires EdgePasses(ont, NodesById(nodes), e)
    ensures EdgePasses(ont, NodesById(out), e) <==>
            e.source !in RetypedIds(nodes, out) && e.target !in RetypedIds(nodes, out)
  {
    hide NodesById, Ontology.EdgeTypeNamed, RetypedIds;
    DictionariesAgree(nodes);
    TypeAfter(nodes, out, e.source);
    TypeAfter(nodes, out, e.target);
  }

  lemma TypeAfter(nodes: seq<Node>, out: seq<Node>, id: string)
    requires UniqueIds(nodes) && UniqueIds(out) && |out| == |nodes| && HasId(nodes, id)
    requires forall i :: 0 <= i < |nodes| ==> out[i].id == nodes[i].id
    ensures id in NodesById(nodes) && id in NodesById(out)
    ensures NodesById(out)[id].typ == NodesById(nodes)[id].typ <==> id !in RetypedIds(nodes, out)
  {
    hide NodesById;
    var i :| 0 <= i < |nodes| && NodeId(nodes[i]) == id;
    LookupOfUnique(nodes, i);
    LookupOfUnique(out, i);
    if id in RetypedIds(nodes, out) {
      var j :| 0 <= j < |nodes| && out[j].typ != nodes[j].typ && nodes[j].id == id;
      assert NodeId(nodes[j]) == NodeId(nodes[i]);
    }
  }

  /** The positions of the edges the judge charges. */
  ghost function Failing(ont: Ontology, byId: map<string, Node>, edges: seq<Edge>): set<nat> {
    set i | 0 <= i < |edges| && !EdgePasses(ont, byId, edges[i])
  }

  lemma {:induction false} FailingCount(ont: Ontology, byId: map<string, Node>, edges: seq<Edge>, k: nat)
    requires k <= |edges|
    ensures EdgesTally(ont, byId, edges, k).edgeViolations == |Below(Failing(ont, byId, edges), k)|
  {
    hide EdgePasses, Below;
    if k > 0 {
      FailingCount(ont, byId, edges, k - 1);
      BelowNext(Failing(ont, byId, edges), k - 1);
    } else {
      BelowNext(Failing(ont, byId, edges), 0);
    }
  }

  /** Every selected edge fails; on a conforming input exactly the hit edges do. */
  lemma EdgeStage(ont: Ontology, nodes: seq<Node>, edges: seq<Edge>, pickedNodes: set<nat>, picked: set<nat>,
                  raw: nat -> nat)
    requires UniqueIds(nodes) && !HasId(nodes, MISSING_ENDPOINT) && (forall i :: i in picked ==> i < |edges|)
    ensures var out := ViolatedNodes(ont, nodes, pickedNodes);
      var failing := Failing(ont, NodesById(out), ViolatedEdges(ont, edges, out, picked, raw));
      && picked <= failing
      && ((forall i :: 0 <= i < |edges| ==> EdgePasses(ont, NodesById(nodes), edges[i])) ==>
            failing == Hit(edges, picked, RetypedIds(nodes, out)))
  {
    hide ViolateNode, NodesById, EdgePasses, ViolateEdge, RetypedIds, ViolatedEdge, ViolatedNodes;
    var out := ViolatedNodes(ont, nodes, pickedNodes);
    ViolatedIds(ont, nodes, pickedNodes);
    forall i | i in picked ensures !EdgePasses(ont, NodesById(out), ViolatedEdge(ont, edges, out, picked, raw, i)) {
      ViolatedAt(ont, edges, out, picked, raw, i);
      ViolatedEdgeFails(ont, edges[i], out, raw(EdgeTurn(ont, edges, out, picked, i)));
    }
    if forall i :: 0 <= i < |edges| ==> EdgePasses(ont, NodesById(nodes), edges[i]) {
      forall i | 0 <= i < |edges| && i !in picked
        ensures EdgePasses(ont, NodesById(out), ViolatedEdge(ont, edges, out, picked, raw, i)) <==>
          edges[i].source !in RetypedIds(nodes, out) && edges[i].target !in RetypedIds(nodes, out)
      {
        ViolatedAt(ont, edges, out, picked, raw, i);
        UntouchedEdge(ont, nodes, out, edges[i]);
      }
    }
  }

  lemma BelowAll(picked: set<nat>, n: nat)
    requires forall i :: i in picked ==> i < n
    ensures Below(picked, n) == picked
  {
  }

  /**
   * Whatever is drawn, the judge charges the corrupted graph at least once per selected node and once
   * per selected edge, that is for `intensity * |nodes|` nodes and `intensity * |edges|` edges, rounded. On a
   * conforming input the node side is charged exactly that often and the edge side exactly for the selected edges
   * together with those touching a retyped node.
   */
  lemma {:induction false} InjectionIsCaught(ds: Dataset, intensity: real, chosenNodes: seq<nat>, chosenEdges: seq<nat>,
                                             raw: nat -> nat)
    requires SentinelFree(ds.ontology) && UniqueIds(ds.nodes) && !HasId(ds.nodes, MISSING_ENDPOINT)
    requires LegalChoice(chosenNodes, Affected(intensity, |ds.nodes|), |ds.nodes|)
    requires LegalChoice(chosenEdges, Affected(intensity, |ds.edges|), |ds.edges|)
    ensures var nodes := ViolatedNodes(ds.ontology, ds.nodes, Selected(NodeIds(ds.nodes), chosenNodes));
      var picked := Selected(Ids(ds.edges), chosenEdges);
      var out := Dataset(ds.ontology, nodes, ViolatedEdges(ds.ontology, ds.edges, nodes, picked, raw));
      var tally := DatasetTally(out);
      && tally.nodeTypeViolations + tally.propertyViolations >= Affected(intensity, |ds.nodes|)
      && tally.edgeViolations >= Affected(intensity, |ds.edges|)
      && (Spotless(DatasetTally(ds)) && UniqueProperties(ds.ontology) ==>
            && tally.nodeTypeViolations + tally.propertyViolations == Affected(intensity, |ds.nodes|)
            && tally.edgeViolations == |Hit(ds.edges, picked, RetypedIds(ds.nodes, nodes))|)
      && |picked| == Affected(intensity, |ds.edges|)
      && (0.0 <= intensity <= 1.0 ==>
            && Rounds(|Selected(NodeIds(ds.nodes), chosenNodes)|, intensity * |ds.nodes| as real)
            && Rounds(|picked|, intensity * |ds.edges| as real))
  {
    hide Selected, NodesById, NodesTally, EdgesTally, SentinelFree, UniqueProperties, Below, RetypedIds, ViolatedNodes,
         ViolatedEdges, EdgePasses;
    var ont := ds.ontology;
    var pickedNodes, picked := Selected(NodeIds(ds.nodes), chosenNodes), Selected(Ids(ds.edges), chosenEdges);
    var nodes := ViolatedNodes(ont, ds.nodes, pickedNodes);
    var edges := ViolatedEdges(ont, ds.edges, nodes, picked, raw);
    SelectedSize(NodeIds(ds.nodes), chosenNodes);
    SelectedSize(Ids(ds.edges), chosenEdges);
    BelowAll(pickedNodes, |ds.nodes|);
    NodeStageCount(ont, ds.nodes, pickedNodes, |ds.nodes|);
    EdgeStage(ont, ds.nodes, ds.edges, pickedNodes, picked, raw);
    FailingCount(ont, NodesById(nodes), edges, |edges|);
    BelowAll(Failing(ont, NodesById(nodes), edges), |edges|);
    SmallerSet(picked, Failing(ont, NodesById(nodes), edges));
    NodesBalance(ont, nodes, |nodes|);
    EdgesBalance(ont, NodesById(nodes), edges, |edges|);
    NodesBalance(ont, ds.nodes, |ds.nodes|);
    EdgesBalance(ont, NodesById(ds.nodes), ds.edges, |ds.edges|);
    if Spotless(DatasetTally(ds)) {
      AllEdgesPass(ont, NodesById(ds.nodes), ds.edges, |ds.edges|);
    }
  }

  lemma {:induction false} AllEdgesPass(ont: Ontology, byId: map<string, Node>, edges: seq<Edge>, k: nat)
    requires k <= |edges|
    ensures EdgesTally(ont, byId, edges, k).edgeViolations == 0 <==>
            forall i :: 0 <= i < k ==> EdgePasses(ont, byId, edges[i])
  {
    hide EdgePasses;
    if k > 0 { AllEdgesPass(ont, byId, edges, k - 1); }
  }
}
