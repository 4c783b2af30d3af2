/**
 * `filterQueryFactoryPostgres`: turns an ordered list of filter objects
 * `{column, condition, value, operator}` into one WHERE-clause fragment,
 * the per-filter fragments joined by single spaces. The first filter's
 * `operator` is overwritten with `WHERE` in place; values are inserted into
 * the text as they are, with no quoting or escaping beyond the template's.
 */
module PostgresFilter {

  datatype Option<T> = None | Some(value: T)

  /** The thirteen condition tags of the fragment table. */
  datatype Condition =
    | Empty
    | LessThan
    | NotEmpty
    | IsEqualTo
    | NotEqualTo
    | GreaterThan
    | IsExactly
    | EndsWith
    | Contains
    | StartsWith
    | LessThanEqualTo
    | GreaterThanEqualTo
    | DoesNotContain

  /** The key under which a condition sits in the table. */
  function Tag(c: Condition): string
  {
    match c
    case Empty => "empty"
    case LessThan => "lessThan"
    case NotEmpty => "notEmpty"
    case IsEqualTo => "isEqualTo"
    case NotEqualTo => "notEqualTo"
    case GreaterThan => "greaterThan"
    case IsExactly => "isExactly"
    case EndsWith => "endsWith"
    case Contains => "contains"
    case StartsWith => "startsWith"
    case LessThanEqualTo => "lessThanEqualTo"
    case GreaterThanEqualTo => "greaterThanEqualTo"
    case DoesNotContain => "doesNotContain"
  }

  /** The lookup `conditions[condition]`: the condition a tag names, if any. */
  function ParseCondition(tag: string): (r: Option<Condition>)
    ensures r.Some? ==> Tag(r.value) == tag
  {
    if tag == "empty" then Some(Empty)
    else if tag == "lessThan" then Some(LessThan)
    else if tag == "notEmpty" then Some(NotEmpty)
    else if tag == "isEqualTo" then Some(IsEqualTo)
    else if tag == "notEqualTo" then Some(NotEqualTo)
    else if tag == "greaterThan" then Some(GreaterThan)
    else if tag == "isExactly" then Some(IsExactly)
    else if tag == "endsWith" then Some(EndsWith)
    else if tag == "contains" then Some(Contains)
    else if tag == "startsWith" then Some(StartsWith)
    else if tag == "lessThanEqualTo" then Some(LessThanEqualTo)
    else if tag == "greaterThanEqualTo" then Some(GreaterThanEqualTo)
    else if tag == "doesNotContain" then Some(DoesNotContain)
    else None
  }

  /** A tag names a condition exactly when it is that condition's key. */
  lemma ParseConditionExact(tag: string, c: Condition)
    ensures ParseCondition(tag) == Some(c) <==> tag == Tag(c)
  {
    match c
    case Empty =>
    case LessThan =>
    case NotEmpty =>
    case IsEqualTo =>
    case NotEqualTo =>
    case GreaterThan =>
    case IsExactly =>
    case EndsWith =>
    case Contains =>
    case StartsWith =>
    case LessThanEqualTo =>
    case GreaterThanEqualTo =>
    case DoesNotContain =>
  }

  /**
   * The fragment table. Every entry starts with the operator, a space, the
   * column and a space; `Predicate` is the rest of each entry.
   */
  function Template(c: Condition, operator: string, column: string, value: string): string
  {
    operator + " " + column + " " + Predicate(c, value)
  }

  function Predicate(c: Condition, value: string): string
  {
    match c
    case Empty => "IS NULL"
    case LessThan => "< " + value
    case NotEmpty => "IS NOT NULL"
    case IsEqualTo => "= " + value
    case NotEqualTo => "!= " + value
    case GreaterThan => "> " + value
    case IsExactly => "= '" + value + "'"
    case EndsWith => "LIKE '%" + value + "'"
    case Contains => "LIKE '%" + value + "%'"
    case StartsWith => "LIKE '" + value + "%'"
    case LessThanEqualTo => "<= " + value
    case GreaterThanEqualTo => ">= " + value
    case DoesNotContain => "NOT LIKE '%" + value + "%'"
  }

  /** Whether a condition's template interpolates the value at all. */
  predicate UsesValue(c: Condition)
  {
    !(c.Empty? || c.NotEmpty?)
  }

  /** The fixed text of an entry before the value (or all of it). */
  function Opening(c: Condition): string
  {
    match c
    case Empty => "IS NULL"
    case LessThan => "< "
    case NotEmpty => "IS NOT NULL"
    case IsEqualTo => "= "
    case NotEqualTo => "!= "
    case GreaterThan => "> "
    case IsExactly => "= '"
    case EndsWith => "LIKE '%"
    case Contains => "LIKE '%"
    case StartsWith => "LIKE '"
    case LessThanEqualTo => "<= "
    case GreaterThanEqualTo => ">= "
    case DoesNotContain => "NOT LIKE '%"
  }

  /** The fixed text of an entry after the value. */
  function Closing(c: Condition): string
  {
    match c
    case IsExactly => "'"
    case EndsWith => "'"
    case Contains => "%'"
    case StartsWith => "%'"
    case DoesNotContain => "%'"
    case _ => ""
  }

  /**
   * Every entry is fixed text, then, for conditions that take one, the
   * value verbatim and more fixed text.
   */
  lemma PredicateShape(c: Condition, value: string)
    ensures Predicate(c, value) == Opening(c) + (if UsesValue(c) then value + Closing(c) else "")
  {
    match c
    case Empty =>
    case LessThan =>
    case NotEmpty =>
    case IsEqualTo =>
    case NotEqualTo =>
    case GreaterThan =>
    case IsExactly =>
    case EndsWith =>
    case Contains =>
    case StartsWith =>
    case LessThanEqualTo =>
    case GreaterThanEqualTo =>
    case DoesNotContain =>
  }

  /** Every fragment opens with its operator, a space, its column and a space. */
  lemma TemplateOpensWithOperator(c: Condition, operator: string, column: string, value: string)
    ensures var head := operator + " " + column + " ";
      |head| < |Template(c, operator, column, value)| && Template(c, operator, column, value)[..|head|] == head
  {
    PredicateShape(c, value);
  }

  /**
   * The value appears verbatim at a fixed place, followed only by the
   * condition's closing text: nothing in it is quoted or escaped.
   */
  lemma TemplateValueVerbatim(c: Condition, operator: string, column: string, value: string)
    requires UsesValue(c)
    ensures var k := |operator| + 1 + |column| + 1 + |Opening(c)|;
      var t := Template(c, operator, column, value);
      && |t| == k + |value| + |Closing(c)|
      && t[k..k + |value|] == value
      && t[k + |value|..] == Closing(c)
  {
    PredicateShape(c, value);
    var head := operator + " " + column + " " + Opening(c);
    assert Template(c, operator, column, value) == head + value + Closing(c);
  }

  /** The existence checks ignore the value. */
  lemma TemplateIgnoresValue(c: Condition, operator: string, column: string, v1: string, v2: string)
    requires !UsesValue(c)
    ensures Template(c, operator, column, v1) == Template(c, operator, column, v2)
  {
    PredicateShape(c, v1);
    PredicateShape(c, v2);
  }

  /** For a condition that takes a value, the fragment determines the value. */
  lemma TemplateValueInjective(c: Condition, operator: string, column: string, v1: string, v2: string)
    requires UsesValue(c)
    requires Template(c, operator, column, v1) == Template(c, operator, column, v2)
    ensures v1 == v2
  {
    TemplateValueVerbatim(c, operator, column, v1);
    TemplateValueVerbatim(c, operator, column, v2);
  }

  /**
   * Because the value is interpolated unescaped, a value carrying pattern
   * syntax makes one condition render as another: `endsWith` with `v + "%"`
   * is `contains` with `v`.
   */
  lemma EndsWithMimicsContains(operator: string, column: string, value: string)
    ensures Template(EndsWith, operator, column, value + "%") == Template(Contains, operator, column, value)
  {
    assert Predicate(EndsWith, value + "%") == "LIKE '%" + value + "%'";
  }

  /** A filter's four fields, as a value. */
  datatype Filter = Filter(column: string, condition: string, value: string, operator: string)

  /**
   * `factory`'s result for a filter whose operator is already settled: the
   * condition's template, or, for a tag outside the table, `undefined`,
   * which `join` renders as the empty string.
   */
  function Fragment(f: Filter): string
  {
    match ParseCondition(f.condition)
    case None => ""
    case Some(c) => Template(c, f.operator, f.column, f.value)
  }

  /** A filter contributes no text exactly when its tag is outside the table. */
  lemma FragmentEmptyIffUnknown(f: Filter)
    ensures Fragment(f) == "" <==> ParseCondition(f.condition).None?
  {
    if ParseCondition(f.condition).Some? {
      var c := ParseCondition(f.condition).value;
      TemplateOpensWithOperator(c, f.operator, f.column, f.value);
    }
  }

  /** `parts.join(' ')`. */
  function JoinSpace(parts: seq<string>): string
  {
    if |parts| == 0 then ""
    else if |parts| == 1 then parts[0]
    else parts[0] + " " + JoinSpace(parts[1..])
  }

  /** Where the `i`-th part starts in the joined text: each earlier part and its separating space. */
  function Offset(parts: seq<string>, i: nat): nat
    requires i <= |parts|
  {
    if i == 0 then 0 else |parts[0]| + 1 + Offset(parts[1..], i - 1)
  }

  /**
   * The layout of a joined text: its length, each part at its offset, and a
   * single space after every part but the last. These determine the text.
   */
  lemma {:induction false} JoinSpaceLayout(parts: seq<string>, i: nat)
    requires i < |parts|
    ensures |JoinSpace(parts)| == Offset(parts, |parts|) - 1
    ensures Offset(parts, i) + |parts[i]| <= |JoinSpace(parts)|
    ensures i + 1 < |parts| ==> Offset(parts, i) + |parts[i]| < |JoinSpace(parts)|
    ensures JoinSpace(parts)[Offset(parts, i)..Offset(parts, i) + |parts[i]|] == parts[i]
    ensures i + 1 < |parts| ==> JoinSpace(parts)[Offset(parts, i) + |parts[i]|] == ' '
  {
    if |parts| == 1 {
      assert Offset(parts[1..], 0) == 0;
    } else {
      var head := parts[0] + " ";
      var tail := JoinSpace(parts[1..]);
      assert JoinSpace(parts) == head + tail;
      JoinSpaceLayout(parts[1..], if i == 0 then 0 else i - 1);
      if i > 0 {
        var o := Offset(parts[1..], i - 1);
        assert Offset(parts, i) == |head| + o;
        assert parts[1..][i - 1] == parts[i];
        assert (head + tail)[|head| + o..|head| + o + |parts[i]|] == tail[o..o + |parts[i]|];
        if i + 1 < |parts| {
          assert (head + tail)[|head| + o + |parts[i]|] == tail[o + |parts[i]|];
        }
      }
    }
  }

  /** Joining one more part adds a space and that part. */
  lemma {:induction false} JoinSpaceAppend(parts: seq<string>, last: string)
    requires parts != []
    ensures JoinSpace(parts + [last]) == JoinSpace(parts) + " " + last
  {
    if |parts| == 1 {
      assert (parts + [last])[1..] == [last];
    } else {
      assert (parts + [last])[1..] == parts[1..] + [last];
      JoinSpaceAppend(parts[1..], last);
    }
  }

  /** The filters as `factory` renders them: the first one's operator is `WHERE`. */
  function OpenClause(fs: seq<Filter>): (r: seq<Filter>)
    ensures |r| == |fs|
    ensures fs != [] ==> r[0] == fs[0].(operator := "WHERE")
    ensures forall i :: 0 < i < |fs| ==> r[i] == fs[i]
  {
    if fs == [] then [] else [fs[0].(operator := "WHERE")] + fs[1..]
  }

  function Fragments(fs: seq<Filter>): seq<string>
  {
    seq(|fs|, i requires 0 <= i < |fs| => Fragment(fs[i]))
  }

  /** The text `filterQueryFactoryPostgres` returns for the given filters. */
  function SqlWhere(fs: seq<Filter>): (r: string)
    ensures fs == [] ==> r == ""
  {
    JoinSpace(Fragments(OpenClause(fs)))
  }

  /**
   * Filter `i` renders at its offset: the first with operator `WHERE`, every
   * later one with its own operator, and each followed by one space unless it
   * is the last.
   */
  lemma SqlWhereLayout(fs: seq<Filter>, i: nat)
    requires i < |fs|
    ensures var parts := Fragments(OpenClause(fs));
      var o := Offset(parts, i);
      && parts[i] == Fragment(OpenClause(fs)[i])
      && |SqlWhere(fs)| == Offset(parts, |fs|) - 1
      && o + |parts[i]| <= |SqlWhere(fs)|
      && (i + 1 < |fs| ==> o + |parts[i]| < |SqlWhere(fs)|)
      && SqlWhere(fs)[o..o + |parts[i]|] == parts[i]
      && (i + 1 < |fs| ==> SqlWhere(fs)[o + |parts[i]|] == ' ')
  {
    JoinSpaceLayout(Fragments(OpenClause(fs)), i);
  }

  /** A filter whose tag is in the table renders as its operator, a space, its column and a space, then more. */
  lemma FragmentOpensWithOperator(f: Filter)
    requires ParseCondition(f.condition).Some?
    ensures var head := f.operator + " " + f.column + " ";
      |head| < |Fragment(f)| && Fragment(f)[..|head|] == head
  {
    TemplateOpensWithOperator(ParseCondition(f.condition).value, f.operator, f.column, f.value);
  }

  /** A non-empty list whose first condition is known opens with `WHERE` and that filter's column. */
  lemma SqlWhereOpensWithWhere(fs: seq<Filter>)
    requires fs != [] && ParseCondition(fs[0].condition).Some?
    ensures var head := "WHERE " + fs[0].column + " ";
      |head| <= |SqlWhere(fs)| && SqlWhere(fs)[..|head|] == head
  {
    var parts := Fragments(OpenClause(fs));
    SqlWhereLayout(fs, 0);
    assert Offset(parts, 0) == 0;
    FragmentOpensWithOperator(OpenClause(fs)[0]);
    var frag := parts[0];
    var head := "WHERE " + fs[0].column + " ";
    var t := SqlWhere(fs);
    assert |head| < |frag| <= |t| && t[..|frag|] == frag && frag[..|head|] == head;
    assert t[..|head|] == t[..|frag|][..|head|];
  }

  /** The first filter's own operator never reaches the text. */
  lemma SqlWhereIgnoresFirstOperator(fs: seq<Filter>, operator: string)
    requires fs != []
    ensures SqlWhere(fs[0 := fs[0].(operator := operator)]) == SqlWhere(fs)
  {
    assert OpenClause(fs[0 := fs[0].(operator := operator)]) == OpenClause(fs);
  }

  /** A filter added after the first contributes a space and its fragment with its own operator. */
  lemma SqlWhereAppend(fs: seq<Filter>, f: Filter)
    requires fs != []
    ensures SqlWhere(fs + [f]) == SqlWhere(fs) + " " + Fragment(f)
  {
    assert OpenClause(fs + [f]) == OpenClause(fs) + [f];
    assert Fragments(OpenClause(fs) + [f]) == Fragments(OpenClause(fs)) + [Fragment(f)];
    JoinSpaceAppend(Fragments(OpenClause(fs)), Fragment(f));
  }

  /** One filter: its operator is replaced by `WHERE`. */
  lemma SqlWhereSingleExample()
    ensures SqlWhere([Filter("age", "greaterThan", "18", "AND")]) == "WHERE age > 18"
  {
    var a := Filter("age", "greaterThan", "18", "AND");
    var w := a.(operator := "WHERE");
    assert ParseCondition("greaterThan") == Some(GreaterThan);
    assert Fragment(w) == "WHERE age > 18";
    assert OpenClause([a]) == [w];
    assert Fragments([w]) == ["WHERE age > 18"];
  }

  /**
   * A first filter whose tag is outside the table contributes nothing, but
   * `join` still writes the space after it, so the text starts with a space.
   */
  lemma SqlWhereUnknownFirst(fs: seq<Filter>)
    requires |fs| > 1 && ParseCondition(fs[0].condition).None?
    ensures |SqlWhere(fs)| > 0 && SqlWhere(fs)[0] == ' '
  {
    SqlWhereLayout(fs, 0);
    assert Offset(Fragments(OpenClause(fs)), 0) == 0;
    FragmentEmptyIffUnknown(OpenClause(fs)[0]);
  }

  /** Rendering one more filter appends its fragment. */
  lemma FragmentsAppend(fs: seq<Filter>, f: Filter)
    ensures Fragments(fs + [f]) == Fragments(fs) + [Fragment(f)]
  {
  }

  /** The joined fragments of filters whose first operator is already `WHERE` are their `SqlWhere`. */
  lemma SettledFragments(fs: seq<Filter>)
    requires fs != [] ==> fs[0].operator == "WHERE"
    ensures JoinSpace(Fragments(fs)) == SqlWhere(fs)
  {
    if fs != [] {
      assert OpenClause(fs) == fs;
    }
  }

  /** Setting the first operator to `WHERE` beforehand does not change the text. */
  lemma SettledOperators(before: seq<Filter>, after: seq<Filter>)
    requires |after| == |before|
    requires before != [] ==> after[0] == before[0].(operator := "WHERE")
    requires forall k :: 0 < k < |before| ==> after[k] == before[k]
    ensures SqlWhere(after) == SqlWhere(before)
  {
    assert OpenClause(after) == OpenClause(before);
  }

  /** A filter object as the caller passes it in; `factory` writes its `operator`. */
  class FilterObject {
    var column: string
    var condition: string
    var value: string
    var operator: string

    constructor (column: string, condition: string, value: string, operator: string)
      ensures Snapshot() == Filter(column, condition, value, operator)
    {
      this.column := column;
      this.condition := condition;
      this.value := value;
      this.operator := operator;
    }

    /** The object's fields as they are now. */
    function Snapshot(): Filter
      reads this
    {
      Filter(column, condition, value, operator)
    }
  }

  function Snapshots(objs: seq<FilterObject>): (fs: seq<Filter>)
    reads objs
    ensures |fs| == |objs| && forall k :: 0 <= k < |objs| ==> fs[k] == objs[k].Snapshot()
  {
    if objs == [] then [] else [objs[0].Snapshot()] + Snapshots(objs[1..])
  }

  /**
   * `factory(filter, index)`: settles the filter's operator (`WHERE` at
   * index 0, its own otherwise) in place, then renders the filter's fields.
   */
  method Factory(filter: FilterObject, index: nat) returns (fragment: string)
    modifies filter`operator
    ensures filter.operator == if index != 0 then old(filter.operator) else "WHERE"
    ensures fragment == Fragment(filter.Snapshot())
  {
    filter.operator := if index != 0 then filter.operator else "WHERE";
    var fields := filter.Snapshot();
    fragment := Fragment(fields);
  }

  /** One turn of the `map` in `filterQueryFactoryPostgres`: `factory` on the next filter, its fragment appended. */
  method RenderNext(filter: FilterObject, index: nat, fragments: seq<string>, ghost seen: seq<Filter>)
    returns (fragments': seq<string>, ghost seen': seq<Filter>)
    requires fragments == Fragments(seen)
    modifies filter`operator
    ensures filter.operator == if index != 0 then old(filter.operator) else "WHERE"
    ensures seen' == seen + [filter.Snapshot()]
    ensures fragments' == Fragments(seen')
  {
    var fragment := Factory(filter, index);
    FragmentsAppend(seen, filter.Snapshot());
    fragments', seen' := fragments + [fragment], seen + [filter.Snapshot()];
  }

  /**
   * `filterQueryFactoryPostgres(filters)`: sets the first filter's operator
   * to `WHERE` in place, leaves every other object as it was, and returns the
   * fragments joined by spaces. When the first object also appears later in
   * the list, that later occurrence renders with `WHERE` too.
   */
  method FilterQueryFactoryPostgres(filters: seq<FilterObject>) returns (query: string)
    modifies filters`operator
    ensures forall k :: 0 <= k < |filters| ==>
      && filters[k].column == old(filters[k].column)
      && filters[k].condition == old(filters[k].condition)
      && filters[k].value == old(filters[k].value)
    ensures |filters| > 0 ==> filters[0].operator == "WHERE"
    ensures forall k :: 0 < k < |filters| && filters[k] != filters[0] ==> filters[k].operator == old(filters[k].operator)
    ensures query == SqlWhere(Snapshots(filters))
    ensures (forall k :: 0 < k < |filters| ==> filters[k] != filters[0]) ==> query == SqlWhere(old(Snapshots(filters)))
  {
    var fragments: seq<string> := [];
    ghost var seen: seq<Filter> := [];
    var i := 0;
    while i < |filters|
      invariant 0 <= i <= |filters|
      invariant |fragments| == i
      invariant i > 0 ==> filters[0].operator == "WHERE"
      invariant forall k :: 0 <= k < |filters| && (i == 0 || filters[k] != filters[0]) ==> filters[k].operator == old(filters[k].operator)
      invariant |seen| == i
      invariant forall k :: 0 <= k < i ==> seen[k] == filters[k].Snapshot()
      invariant fragments == Fragments(seen)
    {
      fragments, seen := RenderNext(filters[i], i, fragments, seen);
      i := i + 1;
    }
    query := JoinSpace(fragments);
    SettledFragments(seen);
    assert seen == Snapshots(filters);
    if forall k :: 0 < k < |filters| ==> filters[k] != filters[0] {
      SettledOperators(old(Snapshots(filters)), seen);
    }
  }
}
