/** A custom filter: a named sequence of filter expressions joined by AND/OR
    link types, one link type between each pair of neighbouring filters. */
module Filters {
  import opened JsRuntime

  datatype LinkType = And | Or

  datatype FilterError =
    | InvalidFilter
    | InvalidLinkType(text: string)
    | NotInSequence

  /** How a call to `add` or `remove` ends: normally, or by throwing. */
  datatype Outcome = Pass | Fail(error: FilterError)

  /** `toUpperCase` on ASCII letters; other characters are kept. */
  function UpperChar(c: char): char {
    if 'a' <= c <= 'z' then (c as int - 'a' as int + 'A' as int) as char else c
  }

  function ToUpper(s: string): (u: string)
    ensures |u| == |s|
    ensures forall i :: 0 <= i < |s| ==> u[i] == UpperChar(s[i])
  {
    if s == [] then [] else [UpperChar(s[0])] + ToUpper(s[1..])
  }

  /** `(linkType || 'AND').toUpperCase()`: an absent or empty argument means AND. */
  function LinkTypeText(linkType: Option<string>): string {
    ToUpper(if linkType.Some? && linkType.value != "" then linkType.value else "AND")
  }

  function ParseLinkType(text: string): Option<LinkType> {
    if text == "AND" then Some(And) else if text == "OR" then Some(Or) else None
  }

  function LinkTypeName(lt: LinkType): string {
    match lt
    case And => "AND"
    case Or => "OR"
  }

  /** The link types are accepted in any letter case, and the default is AND. */
  lemma LinkTypeAnyCase(lt: LinkType)
    ensures ParseLinkType(LinkTypeText(Some(LinkTypeName(lt)))) == Some(lt)
    ensures ParseLinkType(LinkTypeText(Some(if lt == And then "and" else "or"))) == Some(lt)
    ensures ParseLinkType(LinkTypeText(None)) == Some(And)
    ensures ParseLinkType(LinkTypeText(Some(""))) == Some(And)
  {
    assert ToUpper("and") == "AND";
    assert ToUpper("or") == "OR";
    assert ToUpper("AND") == "AND";
    assert ToUpper("OR") == "OR";
  }

  /** Exactly one link type between neighbouring filters. */
  predicate WellLinked(fs: seq<JsValue>, lts: seq<LinkType>) {
    |lts| == if |fs| == 0 then 0 else |fs| - 1
  }

  /** What `forEach` hands its callback for each filter, in order: the filter
      and `linkTypes[i-1]`, which is undefined (None) for the first one and
      for any index past the end of the link types. */
  function Pairing(fs: seq<JsValue>, lts: seq<LinkType>): seq<(JsValue, Option<LinkType>)> {
    seq(|fs|, i requires 0 <= i < |fs| => (fs[i], if 0 < i && i - 1 < |lts| then Some(lts[i - 1]) else None))
  }

  /** The link types left after `remove` spliced the filter at `idx` out and
      `remaining` filters are left. */
  function LinkTypesAfterRemove(lts: seq<LinkType>, idx: nat, remaining: nat): seq<LinkType> {
    if remaining == 0 then [] else SpliceOne(lts, if idx == 0 then 0 else idx - 1)
  }

  class CustomFilter {
    const name: string
    const color: string
    var filters: seq<JsValue>
    var linkTypes: seq<LinkType>
    var result: JsValue

    predicate Valid()
      reads this
    {
      WellLinked(filters, linkTypes)
    }

    /** A new, empty filter sequence; the colour defaults to blue. */
    constructor (name: string, colour: Option<string>)
      ensures this.name == name
      ensures color == if colour.Some? && colour.value != "" then colour.value else "blue"
      ensures filters == [] && linkTypes == [] && result == Null
      ensures Valid()
    {
      this.name := name;
      color := if colour.Some? && colour.value != "" then colour.value else "blue";
      filters := [];
      linkTypes := [];
      result := Null;
    }

    /** `add`: a falsy filter or an unknown link type is refused and nothing
        changes; otherwise the filter is appended, and from the second filter
        on its link type too. */
    method Add(filter: JsValue, linkType: Option<string>) returns (outcome: Outcome)
      modifies this
      ensures !Truthy(filter) ==> outcome == Fail(InvalidFilter) && unchanged(this)
      ensures Truthy(filter) && ParseLinkType(LinkTypeText(linkType)).None? ==>
        outcome == Fail(InvalidLinkType(LinkTypeText(linkType))) && unchanged(this)
      ensures Truthy(filter) && ParseLinkType(LinkTypeText(linkType)).Some? ==>
        && outcome == Pass
        && filters == old(filters) + [filter]
        && linkTypes == (if |old(filters)| == 0 then old(linkTypes)
                         else old(linkTypes) + [ParseLinkType(LinkTypeText(linkType)).value])
        && result == old(result)
      ensures old(Valid()) ==> Valid()
    {
      if !Truthy(filter) {
        return Fail(InvalidFilter);
      }
      var text := LinkTypeText(linkType);
      var parsed := ParseLinkType(text);
      if parsed.None? {
        return Fail(InvalidLinkType(text));
      }
      filters := filters + [filter];
      if |filters| > 1 {
        linkTypes := linkTypes + [parsed.value];
      }
      outcome := Pass;
    }

    /** `remove`: a falsy filter or one not in the sequence is refused and
        nothing changes; otherwise its first occurrence is spliced out together
        with one link type, and the cached result is cleared. */
    method Remove(filter: JsValue) returns (outcome: Outcome)
      modifies this
      ensures !Truthy(filter) ==> outcome == Fail(InvalidFilter) && unchanged(this)
      ensures Truthy(filter) && filter !in old(filters) ==> outcome == Fail(NotInSequence) && unchanged(this)
      ensures Truthy(filter) && filter in old(filters) ==>
        var idx := IndexOf(old(filters), filter);
        && outcome == Pass
        && filters == RemoveAt(old(filters), idx)
        && linkTypes == LinkTypesAfterRemove(old(linkTypes), idx, |old(filters)| - 1)
        && result == Null
      ensures old(Valid()) ==> Valid()
    {
      if !Truthy(filter) {
        return Fail(InvalidFilter);
      }
      var filterIndex := IndexOf(filters, filter);
      if filterIndex == -1 {
        return Fail(NotInSequence);
      }
      filters := RemoveAt(filters, filterIndex);
      if |filters| == 0 {
        linkTypes := [];
      }
      if |linkTypes| > 0 {
        linkTypes := SpliceOne(linkTypes, if filterIndex == 0 then 0 else filterIndex - 1);
      }
      result := Null;
      outcome := Pass;
    }

    /** `serialize`: walk the filters with `forEach` and collect each
        `[filter, linkType]` pair the callback receives. */
    method Serialize() returns (rep: seq<(JsValue, Option<LinkType>)>)
      ensures rep == Pairing(filters, linkTypes)
    {
      rep := [];
      for i := 0 to |filters|
        invariant rep == Pairing(filters[..i], linkTypes)
      {
        var linkType := if 0 < i && i - 1 < |linkTypes| then Some(linkTypes[i - 1]) else None;
        rep := rep + [(filters[i], linkType)];
      }
      assert filters[..|filters|] == filters;
    }
  }

  /** In a well-linked sequence every filter but the first carries the link
      type that joins it to its predecessor. */
  lemma PairingLinksAllButFirst(fs: seq<JsValue>, lts: seq<LinkType>)
    requires WellLinked(fs, lts)
    ensures var ps := Pairing(fs, lts);
      && |ps| == |fs|
      && (forall i :: 0 <= i < |ps| ==> ps[i].0 == fs[i])
      && (|ps| > 0 ==> ps[0].1 == None)
      && (forall i :: 0 < i < |ps| ==> ps[i].1 == Some(lts[i - 1]))
  {
  }

  /** Adding a filter to a well-linked sequence adds one pair at the end,
      carrying the new link type unless it is the first filter. */
  lemma PairingAfterAdd(fs: seq<JsValue>, lts: seq<LinkType>, f: JsValue, lt: LinkType)
    requires WellLinked(fs, lts)
    ensures var lts' := if |fs| == 0 then lts else lts + [lt];
      Pairing(fs + [f], lts') == Pairing(fs, lts) + [(f, if |fs| == 0 then None else Some(lt))]
  {
    var lts' := if |fs| == 0 then lts else lts + [lt];
    var ps := Pairing(fs + [f], lts');
    var qs := Pairing(fs, lts) + [(f, if |fs| == 0 then None else Some(lt))];
    assert |ps| == |qs|;
    forall i | 0 <= i < |ps| ensures ps[i] == qs[i] {
      if i < |fs| {
        assert ps[i].1 == qs[i].1;
      }
    }
  }

  /** Removing the filter at `idx` drops its pair and shifts the later ones
      down, each keeping its link type, except that the pair that becomes
      first loses its link type.  So removing the first filter also drops the
      link type of the second, and removing any other filter drops the link
      type that joined it to its predecessor. */
  lemma RemoveDropsOnePair(fs: seq<JsValue>, lts: seq<LinkType>, idx: nat)
    requires WellLinked(fs, lts) && idx < |fs|
    ensures var ps := Pairing(fs, lts);
      var qs := Pairing(RemoveAt(fs, idx), LinkTypesAfterRemove(lts, idx, |fs| - 1));
      && |qs| == |ps| - 1
      && (forall k :: 0 <= k < |qs| ==> qs[k].0 == ps[if k < idx then k else k + 1].0)
      && (forall k :: 0 < k < |qs| ==> qs[k].1 == ps[if k < idx then k else k + 1].1)
      && (|qs| > 0 ==> qs[0].1 == None)
  {
  }

  /** `remove` undoes an `add` of a filter that was not yet in the sequence. */
  lemma RemoveUndoesAdd(fs: seq<JsValue>, lts: seq<LinkType>, f: JsValue, lt: LinkType)
    requires WellLinked(fs, lts) && f !in fs
    ensures var fs' := fs + [f];
      var lts' := if |fs| == 0 then lts else lts + [lt];
      var idx := IndexOf(fs', f);
      idx == |fs| && RemoveAt(fs', idx) == fs && LinkTypesAfterRemove(lts', idx, |fs'| - 1) == lts
  {
    var fs' := fs + [f];
    assert fs'[..|fs|] == fs;
    assert f !in fs'[..|fs|];
    assert IndexOf(fs', f) == |fs|;
    assert RemoveAt(fs', |fs|) == fs;
  }
}
