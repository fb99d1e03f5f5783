/** Withholding an entity's fields from a viewer: blanked, listed as masked, and nothing else. */
module FieldGate {
  import opened Basics
  import opened Proposals

  /** What a viewer may see of a field: everything, nothing, or only what the partner did not write. */
  datatype Gate = Show | Hide | HidePartner

  datatype UnlockBy = SignIn | Contribute

  /**
   * The field policy as it applies to one entity kind and one viewer: `fieldGate`, what unlocks a
   * field (told whether the partner wrote it), and the registered fields in order.
   */
  datatype Policy = Policy(
    gate: string -> Gate,
    unlockBy: (string, bool) -> Option<UnlockBy>,
    registry: seq<string>
  )

  /** An entity as the API returns it. */
  datatype Record = Record(
    fields: map<string, Value>,
    masked: Option<seq<string>>,
    maskedUnlock: Option<map<string, UnlockBy>>
  )

  // ----- masking --------------------------------------------------------------------------------

  /** A list built by adding each element to a `Set`. */
  function Added(s: seq<string>, more: seq<string>): (r: seq<string>)
    ensures forall x :: x in r <==> x in s || x in more
    ensures Distinct(s) ==> Distinct(r)
    ensures s <= r
  {
    if more == [] then s
    else
      var rest := Added(s, more[..|more| - 1]);
      assert more == more[..|more| - 1] + [more[|more| - 1]];
      if more[|more| - 1] in rest then rest else rest + [more[|more| - 1]]
  }

  /** The value shown in place of a withheld one. */
  function Blank(blanks: map<string, Value>, field: string): Value {
    if field !in blanks then Null else if blanks[field].Texts? then Texts([]) else blanks[field]
  }

  function Present(e: Record, fields: seq<string>): (r: seq<string>)
    ensures forall f :: f in r <==> f in fields && f in e.fields
  {
    if fields == [] then []
    else
      var last := fields[|fields| - 1];
      assert fields == fields[..|fields| - 1] + [last];
      Present(e, fields[..|fields| - 1]) + if last in e.fields then [last] else []
  }

  function OldMasked(e: Record): seq<string> {
    if e.masked.Some? then e.masked.value else []
  }

  function OldUnlock(e: Record): map<string, UnlockBy> {
    if e.maskedUnlock.Some? then e.maskedUnlock.value else map[]
  }

  function Blanked(e: Record, fields: seq<string>, blanks: map<string, Value>): map<string, Value> {
    map f | f in e.fields :: if f in fields then Blank(blanks, f) else e.fields[f]
  }

  function MaskList(e: Record, fields: seq<string>): seq<string> {
    Added(Added([], OldMasked(e)), Present(e, fields))
  }

  function Unlocked(e: Record, fields: seq<string>, unlock: map<string, UnlockBy>): map<string, UnlockBy> {
    OldUnlock(e) + map f | f in unlock && f in fields && f in e.fields :: unlock[f]
  }

  function Masked(e: Record, fields: seq<string>, blanks: map<string, Value>, unlock: map<string, UnlockBy>): Record {
    var masked := MaskList(e, fields);
    var unlockBy := Unlocked(e, fields, unlock);
    Record(
      Blanked(e, fields, blanks),
      if masked != [] then Some(masked) else e.masked,
      if unlockBy != map[] then Some(unlockBy) else e.maskedUnlock)
  }

  /** One more field masked. */
  lemma MaskOneMore(
    e: Record, fields: seq<string>, f: string, blanks: map<string, Value>, unlock: map<string, UnlockBy>
  )
    ensures f !in e.fields ==>
      && Blanked(e, fields + [f], blanks) == Blanked(e, fields, blanks)
      && MaskList(e, fields + [f]) == MaskList(e, fields)
      && Unlocked(e, fields + [f], unlock) == Unlocked(e, fields, unlock)
    ensures f in e.fields ==>
      && Blanked(e, fields + [f], blanks) == Blanked(e, fields, blanks)[f := Blank(blanks, f)]
      && MaskList(e, fields + [f]) ==
           (if f in MaskList(e, fields) then MaskList(e, fields) else MaskList(e, fields) + [f])
      && Unlocked(e, fields + [f], unlock) ==
           if f in unlock then Unlocked(e, fields, unlock)[f := unlock[f]] else Unlocked(e, fields, unlock)
  {
    hide Blanked, MaskList, Unlocked;
    BlankOneMore(e, fields, f, blanks);
    ListOneMore(e, fields, f);
    UnlockedOneMore(e, fields, f, unlock);
  }

  lemma BlankOneMore(e: Record, fields: seq<string>, f: string, blanks: map<string, Value>)
    ensures Blanked(e, fields + [f], blanks) ==
      if f in e.fields then Blanked(e, fields, blanks)[f := Blank(blanks, f)] else Blanked(e, fields, blanks)
  {
  }

  lemma ListOneMore(e: Record, fields: seq<string>, f: string)
    ensures var before := MaskList(e, fields);
      MaskList(e, fields + [f]) == if f !in e.fields || f in before then before else before + [f]
  {
    var more := Present(e, fields);
    assert (fields + [f])[..|fields|] == fields;
    assert (more + [f])[..|more|] == more;
    assert more + [] == more;
  }

  lemma UnlockedOneMore(e: Record, fields: seq<string>, f: string, unlock: map<string, UnlockBy>)
    ensures Unlocked(e, fields + [f], unlock) ==
      if f in e.fields && f in unlock then Unlocked(e, fields, unlock)[f := unlock[f]] else Unlocked(e, fields, unlock)
  {
  }

  method MaskFields(e: Record, fields: seq<string>, blanks: map<string, Value>, unlock: map<string, UnlockBy>)
    returns (r: Record)
    ensures r == Masked(e, fields, blanks, unlock)
  {
    hide Blanked, MaskList, Unlocked;
    var out := e.fields;
    var masked := Added([], OldMasked(e));
    var unlockBy := OldUnlock(e);
    MaskNone(e, blanks, unlock);
    var i := 0;
    while i < |fields|
      invariant 0 <= i <= |fields| && out.Keys == e.fields.Keys
      invariant out == Blanked(e, fields[..i], blanks)
      invariant masked == MaskList(e, fields[..i])
      invariant unlockBy == Unlocked(e, fields[..i], unlock)
    {
      var field := fields[i];
      assert fields[..i + 1] == fields[..i] + [field];
      MaskOneMore(e, fields[..i], field, blanks, unlock);
      i := i + 1;
      if field !in out {
        continue;
      }
      out := out[field := Blank(blanks, field)];
      masked := if field in masked then masked else masked + [field];
      if field in unlock {
        unlockBy := unlockBy[field := unlock[field]];
      }
    }
    assert fields[..i] == fields;
    return Record(
      out,
      if masked != [] then Some(masked) else e.masked,
      if unlockBy != map[] then Some(unlockBy) else e.maskedUnlock);
  }

  lemma MaskNone(e: Record, blanks: map<string, Value>, unlock: map<string, UnlockBy>)
    ensures Blanked(e, [], blanks) == e.fields
    ensures MaskList(e, []) == Added([], OldMasked(e))
    ensures Unlocked(e, [], unlock) == OldUnlock(e)
  {
  }

  // ----- gating -----------------------------------------------------------------------------------

  /** The partner's fields of the entity that this viewer may not see as the partner's. */
  function PartnerHidden(p: Policy, e: Record, partner: seq<string>): (r: seq<string>)
    ensures forall f :: f in r <==> f in partner && f in e.fields && p.gate(f) != Show
  {
    if partner == [] then []
    else
      var last := partner[|partner| - 1];
      assert partner == partner[..|partner| - 1] + [last];
      PartnerHidden(p, e, partner[..|partner| - 1]) + if last in e.fields && p.gate(last) != Show then [last] else []
  }

  /** Then the registered fields hidden whoever wrote them. */
  function HiddenToo(p: Policy, e: Record, hidden: seq<string>, registry: seq<string>): (r: seq<string>)
    ensures forall f :: f in r <==> f in hidden || (f in registry && f in e.fields && p.gate(f) == Hide)
  {
    if registry == [] then hidden
    else
      var last := registry[|registry| - 1];
      assert registry == registry[..|registry| - 1] + [last];
      var rest := HiddenToo(p, e, hidden, registry[..|registry| - 1]);
      if last in e.fields && last !in rest && p.gate(last) == Hide then rest + [last] else rest
  }

  function HideList(p: Policy, e: Record, partnerFields: seq<string>): seq<string> {
    HiddenToo(p, e, PartnerHidden(p, e, Added([], partnerFields)), p.registry)
  }

  function UnlockOf(p: Policy, partnerFields: seq<string>, field: string): UnlockBy {
    var how := p.unlockBy(field, field in partnerFields);
    if field in p.registry && how.Some? then how.value else SignIn
  }

  function UnlockMap(p: Policy, partnerFields: seq<string>, hidden: seq<string>): map<string, UnlockBy> {
    map f | f in hidden :: UnlockOf(p, partnerFields, f)
  }

  function Gated(p: Policy, e: Record, partnerFields: seq<string>, blanks: map<string, Value>): Record {
    var hidden := HideList(p, e, partnerFields);
    if hidden == [] then e else Masked(e, hidden, blanks, UnlockMap(p, partnerFields, hidden))
  }

  lemma HideOneMore(
    p: Policy, e: Record, partnerFields: seq<string>, fields: seq<string>, f: string, first: seq<string>
  )
    ensures PartnerHidden(p, e, fields + [f]) ==
      if f in e.fields && p.gate(f) != Show then PartnerHidden(p, e, fields) + [f] else PartnerHidden(p, e, fields)
    ensures var before := HiddenToo(p, e, first, fields);
      HiddenToo(p, e, first, fields + [f]) ==
        if f in e.fields && f !in before && p.gate(f) == Hide then before + [f] else before
  {
    assert (fields + [f])[..|fields|] == fields;
    assert PartnerHidden(p, e, fields) + [] == PartnerHidden(p, e, fields);
  }

  lemma UnlockOneMore(p: Policy, partnerFields: seq<string>, hidden: seq<string>, f: string)
    ensures UnlockMap(p, partnerFields, hidden + [f]) ==
      UnlockMap(p, partnerFields, hidden)[f := UnlockOf(p, partnerFields, f)]
  {
  }

  method GateFields(p: Policy, e: Record, partnerFields: seq<string>, blanks: map<string, Value>) returns (r: Record)
    ensures r == Gated(p, e, partnerFields, blanks)
  {
    hide UnlockMap, UnlockOf, PartnerHidden, HiddenToo, Added;
    var partner := Added([], partnerFields);
    var hidden: seq<string> := [];
    var unlock: map<string, UnlockBy> := map[];
    HideNone(p, e, partnerFields);
    // One pass over the marks, in the order they were stored in.
    var i := 0;
    while i < |partner|
      invariant 0 <= i <= |partner|
      invariant hidden == PartnerHidden(p, e, partner[..i])
      invariant unlock == UnlockMap(p, partnerFields, hidden)
    {
      var field := partner[i];
      assert partner[..i + 1] == partner[..i] + [field];
      HideOneMore(p, e, partnerFields, partner[..i], field, []);
      if field in e.fields && p.gate(field) != Show {
        UnlockOneMore(p, partnerFields, hidden, field);
        hidden := hidden + [field];
        unlock := unlock[field := UnlockOf(p, partnerFields, field)];
      }
      i := i + 1;
    }
    assert partner[..i] == partner;
    // A second one over the registry, for what is hidden regardless of its author.
    ghost var first := hidden;
    HideNoneToo(p, e, first);
    var j := 0;
    while j < |p.registry|
      invariant 0 <= j <= |p.registry|
      invariant hidden == HiddenToo(p, e, first, p.registry[..j])
      invariant unlock == UnlockMap(p, partnerFields, hidden)
    {
      var field := p.registry[j];
      assert p.registry[..j + 1] == p.registry[..j] + [field];
      HideOneMore(p, e, partnerFields, p.registry[..j], field, first);
      if field in e.fields && field !in hidden && p.gate(field) == Hide {
        UnlockOneMore(p, partnerFields, hidden, field);
        hidden := hidden + [field];
        unlock := unlock[field := UnlockOf(p, partnerFields, field)];
      }
      j := j + 1;
    }
    assert p.registry[..j] == p.registry;
    if hidden == [] {
      return e;
    }
    r := MaskFields(e, hidden, blanks, unlock);
  }

  lemma HideNone(p: Policy, e: Record, partnerFields: seq<string>)
    ensures PartnerHidden(p, e, []) == [] && UnlockMap(p, partnerFields, []) == map[]
  {
  }

  lemma HideNoneToo(p: Policy, e: Record, first: seq<string>)
    ensures HiddenToo(p, e, first, []) == first
  {
  }

  // ----- what the viewer gets ------------------------------------------------------------------------

  /** A value withheld from the viewer: hidden whoever wrote it, or the partner's and hidden as such. */
  predicate Withheld(p: Policy, e: Record, partnerFields: seq<string>, f: string) {
    f in e.fields && ((f in partnerFields && p.gate(f) != Show) || (f in p.registry && p.gate(f) == Hide))
  }

  lemma HiddenIsWithheld(p: Policy, e: Record, partnerFields: seq<string>)
    ensures forall f :: f in HideList(p, e, partnerFields) <==> Withheld(p, e, partnerFields, f)
    ensures forall f :: f in HideList(p, e, partnerFields) ==> f in e.fields
  {
  }

  /** A field of the entity that the policy hides whoever wrote it, or hides as the partner's when it is. */
  predicate HiddenField(p: Policy, e: Record, partnerFields: seq<string>, f: string) {
    && f in e.fields
    && ((f in p.registry && p.gate(f) == Hide)
        || (f in partnerFields && (p.gate(f) == Hide || p.gate(f) == HidePartner)))
  }

  /** In its place stands an empty list for a list, the field's own blank, or null when it has none. */
  predicate ShownAs(blanks: map<string, Value>, f: string, shown: Value) {
    && (f !in blanks ==> shown == Null)
    && (f in blanks && blanks[f].Texts? ==> shown == Texts([]))
    && (f in blanks && !blanks[f].Texts? ==> shown == blanks[f])
  }

  /** Signing in unlocks a field outside the registry, and one the policy names nothing else for. */
  predicate UnlockedBy(p: Policy, partnerFields: seq<string>, f: string, how: UnlockBy) {
    && (f !in p.registry ==> how == SignIn)
    && (f in p.registry && p.unlockBy(f, f in partnerFields).None? ==> how == SignIn)
    && (f in p.registry ==>
         forall named :: p.unlockBy(f, f in partnerFields) == Some(named) ==> how == named)
  }

  lemma OneFieldGated(p: Policy, e: Record, partnerFields: seq<string>, blanks: map<string, Value>, f: string)
    ensures Withheld(p, e, partnerFields, f) <==> HiddenField(p, e, partnerFields, f)
    ensures HiddenField(p, e, partnerFields, f) ==> f in e.fields
    ensures ShownAs(blanks, f, Blank(blanks, f))
    ensures UnlockedBy(p, partnerFields, f, UnlockOf(p, partnerFields, f))
  {
  }

  lemma NothingWithheld(p: Policy, e: Record, partnerFields: seq<string>, blanks: map<string, Value>)
    ensures (forall f :: !Withheld(p, e, partnerFields, f)) ==> (Gated(p, e, partnerFields, blanks) == e)
  {
    hide Withheld, HideList, Masked;
    HiddenIsWithheld(p, e, partnerFields);
    EmptyOrHasMember(HideList(p, e, partnerFields));
  }

  /** Exactly the withheld fields are blanked and listed, each with what unlocks it, and every
      other field and every earlier mask is kept. */
  lemma GatesExactly(p: Policy, e: Record, partnerFields: seq<string>, blanks: map<string, Value>)
    ensures var r := Gated(p, e, partnerFields, blanks);
      && r.fields.Keys == e.fields.Keys
      && (forall f :: f in e.fields ==>
           if HiddenField(p, e, partnerFields, f) then ShownAs(blanks, f, r.fields[f]) else r.fields[f] == e.fields[f])
      && (forall f :: (r.masked.Some? && f in r.masked.value) <==>
           ((e.masked.Some? && f in e.masked.value) || HiddenField(p, e, partnerFields, f)))
      && (forall f :: HiddenField(p, e, partnerFields, f) ==>
           r.maskedUnlock.Some? && f in r.maskedUnlock.value
           && UnlockedBy(p, partnerFields, f, r.maskedUnlock.value[f]))
      && (forall f :: !HiddenField(p, e, partnerFields, f) ==>
           ((r.maskedUnlock.Some? && f in r.maskedUnlock.value) <==>
            (e.maskedUnlock.Some? && f in e.maskedUnlock.value)))
      && (forall f :: e.maskedUnlock.Some? && f in e.maskedUnlock.value && !HiddenField(p, e, partnerFields, f) ==>
           r.maskedUnlock.value[f] == e.maskedUnlock.value[f])
      && ((forall f :: !HiddenField(p, e, partnerFields, f)) ==> r == e)
  {
    hide Gated, Withheld, HiddenField, Blank, UnlockOf, ShownAs, UnlockedBy;
    var r := Gated(p, e, partnerFields, blanks);
    GatedFields(p, e, partnerFields, blanks);
    GatedUnlock(p, e, partnerFields, blanks);
    forall f
      ensures Withheld(p, e, partnerFields, f) <==> HiddenField(p, e, partnerFields, f)
      ensures HiddenField(p, e, partnerFields, f) ==> f in e.fields
      ensures ShownAs(blanks, f, Blank(blanks, f))
      ensures HiddenField(p, e, partnerFields, f) ==>
        f in OldUnlock(r) && UnlockedBy(p, partnerFields, f, OldUnlock(r)[f])
    {
      OneFieldGated(p, e, partnerFields, blanks, f);
    }
    NothingWithheld(p, e, partnerFields, blanks);
  }

  lemma {:induction false} AddNothingNew(s: seq<string>, more: seq<string>)
    requires forall f :: f in more ==> f in s
    ensures Added(s, more) == s
  {
    if more != [] {
      assert more == more[..|more| - 1] + [more[|more| - 1]];
      AddNothingNew(s, more[..|more| - 1]);
    }
  }

  lemma {:induction false} AddDistinct(s: seq<string>, more: seq<string>)
    requires Distinct(s + more)
    ensures Added(s, more) == s + more
  {
    if more == [] {
      assert s + more == s;
    } else {
      var front := more[..|more| - 1];
      assert s + more == (s + front) + [more[|more| - 1]];
      assert forall i :: 0 <= i < |s + front| ==> (s + front)[i] == (s + more)[i];
      AddDistinct(s, front);
      assert (s + more)[|s + front|] == more[|more| - 1];
      forall i | 0 <= i < |s + front| ensures (s + front)[i] != more[|more| - 1] {
        assert (s + more)[i] == (s + front)[i];
      }
    }
  }

  lemma MaskedAgain(e: Record, hidden: seq<string>, blanks: map<string, Value>, unlock: map<string, UnlockBy>)
    requires hidden != [] && forall f :: f in hidden ==> f in e.fields && f in unlock
    ensures var r := Masked(e, hidden, blanks, unlock); Masked(r, hidden, blanks, unlock) == r
  {
    hide Blanked, MaskList, Unlocked;
    var r := Masked(e, hidden, blanks, unlock);
    ListNonEmpty(e, hidden, unlock);
    BlankedAgain(e, r, hidden, blanks);
    ListedAgain(e, r, hidden);
    UnlockedAgain(e, r, hidden, unlock);
  }

  lemma ListNonEmpty(e: Record, hidden: seq<string>, unlock: map<string, UnlockBy>)
    requires hidden != [] && forall f :: f in hidden ==> f in e.fields && f in unlock
    ensures MaskList(e, hidden) != [] && Unlocked(e, hidden, unlock) != map[]
  {
    assert hidden[0] in MaskList(e, hidden);
    assert hidden[0] in Unlocked(e, hidden, unlock);
  }

  lemma UnlockedAgain(e: Record, r: Record, hidden: seq<string>, unlock: map<string, UnlockBy>)
    requires r.maskedUnlock == Some(Unlocked(e, hidden, unlock)) && r.fields.Keys == e.fields.Keys
    ensures Unlocked(r, hidden, unlock) == Unlocked(e, hidden, unlock)
  {
  }

  lemma BlankedAgain(e: Record, r: Record, hidden: seq<string>, blanks: map<string, Value>)
    requires r.fields == Blanked(e, hidden, blanks)
    ensures Blanked(r, hidden, blanks) == r.fields && r.fields.Keys == e.fields.Keys
  {
  }

  lemma ListedAgain(e: Record, r: Record, hidden: seq<string>)
    requires r.masked == Some(MaskList(e, hidden)) && forall f :: f in hidden ==> f in e.fields
    ensures MaskList(r, hidden) == MaskList(e, hidden)
  {
    var masked := MaskList(e, hidden);
    AddDistinct([], masked);
    assert [] + masked == masked;
    AddNothingNew(masked, Present(r, hidden));
  }

  /** Gating twice is gating once: the same blanks, the same list in the same order. */
  lemma GateIsIdempotent(p: Policy, e: Record, partnerFields: seq<string>, blanks: map<string, Value>)
    ensures var r := Gated(p, e, partnerFields, blanks); Gated(p, r, partnerFields, blanks) == r
  {
    hide HideList, Masked, UnlockOf;
    var hidden := HideList(p, e, partnerFields);
    var r := Gated(p, e, partnerFields, blanks);
    if hidden != [] {
      HiddenIsWithheld(p, e, partnerFields);
      MaskedKeys(e, hidden, blanks, UnlockMap(p, partnerFields, hidden));
      SameKeysSameHidden(p, e, r, partnerFields);
      MaskedAgain(e, hidden, blanks, UnlockMap(p, partnerFields, hidden));
    }
  }

  lemma MaskedKeys(e: Record, hidden: seq<string>, blanks: map<string, Value>, unlock: map<string, UnlockBy>)
    ensures Masked(e, hidden, blanks, unlock).fields.Keys == e.fields.Keys
  {
  }

  lemma SameKeysSameHidden(p: Policy, a: Record, b: Record, partnerFields: seq<string>)
    requires a.fields.Keys == b.fields.Keys
    ensures HideList(p, a, partnerFields) == HideList(p, b, partnerFields)
  {
    SamePartnerHidden(p, a, b, Added([], partnerFields));
    SameHiddenToo(p, a, b, PartnerHidden(p, a, Added([], partnerFields)), p.registry);
  }

  lemma {:induction false} SamePartnerHidden(p: Policy, a: Record, b: Record, partner: seq<string>)
    requires a.fields.Keys == b.fields.Keys
    ensures PartnerHidden(p, a, partner) == PartnerHidden(p, b, partner)
  {
    if partner != [] {
      SamePartnerHidden(p, a, b, partner[..|partner| - 1]);
      assert partner[|partner| - 1] in a.fields <==> partner[|partner| - 1] in b.fields;
    }
  }

  lemma {:induction false} SameHiddenToo(p: Policy, a: Record, b: Record, first: seq<string>, registry: seq<string>)
    requires a.fields.Keys == b.fields.Keys
    ensures HiddenToo(p, a, first, registry) == HiddenToo(p, b, first, registry)
  {
    if registry != [] {
      SameHiddenToo(p, a, b, first, registry[..|registry| - 1]);
      assert registry[|registry| - 1] in a.fields <==> registry[|registry| - 1] in b.fields;
    }
  }

  lemma {:induction false} SamePresent(a: Record, b: Record, fields: seq<string>)
    requires a.fields.Keys == b.fields.Keys
    ensures Present(a, fields) == Present(b, fields)
  {
    if fields != [] {
      SamePresent(a, b, fields[..|fields| - 1]);
      assert fields[|fields| - 1] in a.fields <==> fields[|fields| - 1] in b.fields;
    }
  }

  /** The viewer cannot tell two entities apart that differ only in values withheld from them. */
  lemma WithheldValuesDoNotShow(p: Policy, a: Record, b: Record, partnerFields: seq<string>, blanks: map<string, Value>)
    requires a.fields.Keys == b.fields.Keys && a.masked == b.masked && a.maskedUnlock == b.maskedUnlock
    requires forall f :: f in a.fields && !Withheld(p, a, partnerFields, f) ==> a.fields[f] == b.fields[f]
    ensures Gated(p, a, partnerFields, blanks) == Gated(p, b, partnerFields, blanks)
  {
    hide HideList, Masked, Withheld, UnlockMap;
    SameKeysSameHidden(p, a, b, partnerFields);
    HiddenIsWithheld(p, a, partnerFields);
    var hidden := HideList(p, a, partnerFields);
    if hidden == [] {
      assert a.fields == b.fields;
    } else {
      SameMasked(a, b, hidden, blanks, UnlockMap(p, partnerFields, hidden));
    }
  }

  lemma SameMasked(
    a: Record, b: Record, hidden: seq<string>, blanks: map<string, Value>, unlock: map<string, UnlockBy>
  )
    requires a.fields.Keys == b.fields.Keys && a.masked == b.masked && a.maskedUnlock == b.maskedUnlock
    requires forall f :: f in a.fields && f !in hidden ==> a.fields[f] == b.fields[f]
    ensures Masked(a, hidden, blanks, unlock) == Masked(b, hidden, blanks, unlock)
  {
    SamePresent(a, b, hidden);
    assert Blanked(a, hidden, blanks) == Blanked(b, hidden, blanks);
    assert Unlocked(a, hidden, unlock) == Unlocked(b, hidden, unlock);
  }

  /** What a viewer gets, but for the order in which masked fields are listed. */
  ghost predicate SameView(a: Record, b: Record) {
    a.fields == b.fields && Elements(OldMasked(a)) == Elements(OldMasked(b)) && OldUnlock(a) == OldUnlock(b)
  }

  lemma GatedUnlock(p: Policy, e: Record, marks: seq<string>, blanks: map<string, Value>)
    ensures OldUnlock(Gated(p, e, marks, blanks)) ==
      OldUnlock(e) + map f | f in e.fields && Withheld(p, e, marks, f) :: UnlockOf(p, marks, f)
  {
    hide HideList, Withheld, UnlockOf, Masked, OldUnlock;
    HiddenIsWithheld(p, e, marks);
    var hidden := HideList(p, e, marks);
    EmptyOrHasMember(hidden);
    var withheld := map f | f in e.fields && Withheld(p, e, marks, f) :: UnlockOf(p, marks, f);
    if hidden == [] {
      assert withheld == map[];
    } else {
      MaskedUnlocks(e, hidden, blanks, UnlockMap(p, marks, hidden));
      assert withheld ==
        map f | f in UnlockMap(p, marks, hidden) && f in hidden && f in e.fields :: UnlockOf(p, marks, f);
    }
  }

  lemma MaskedUnlocks(e: Record, hidden: seq<string>, blanks: map<string, Value>, unlock: map<string, UnlockBy>)
    ensures OldUnlock(Masked(e, hidden, blanks, unlock)) == Unlocked(e, hidden, unlock)
  {
  }

  lemma GatedFields(p: Policy, e: Record, marks: seq<string>, blanks: map<string, Value>)
    ensures Gated(p, e, marks, blanks).fields ==
      map f | f in e.fields :: if Withheld(p, e, marks, f) then Blank(blanks, f) else e.fields[f]
    ensures forall f :: f in OldMasked(Gated(p, e, marks, blanks)) <==> f in OldMasked(e) || Withheld(p, e, marks, f)
  {
    hide HideList, Withheld, Blank, Masked, OldMasked, MaskList;
    HiddenIsWithheld(p, e, marks);
    var hidden := HideList(p, e, marks);
    EmptyOrHasMember(hidden);
    MaskedShows(e, hidden, blanks, UnlockMap(p, marks, hidden));
  }

  lemma MaskedShows(e: Record, fields: seq<string>, blanks: map<string, Value>, unlock: map<string, UnlockBy>)
    ensures Masked(e, fields, blanks, unlock).fields == Blanked(e, fields, blanks)
    ensures forall f :: f in OldMasked(Masked(e, fields, blanks, unlock)) <==>
      f in OldMasked(e) || (f in fields && f in e.fields)
  {
    EmptyOrHasMember(MaskList(e, fields));
  }

  /** The gate reads the partner marks as a set: their order changes nothing but the list's. */
  lemma MarksAsASet(p: Policy, e: Record, marks: seq<string>, others: seq<string>, blanks: map<string, Value>)
    requires Elements(marks) == Elements(others)
    ensures SameView(Gated(p, e, marks, blanks), Gated(p, e, others, blanks))
  {
    hide Gated, UnlockOf, Withheld, Blank;
    SameElements(marks, others);
    var a, b := Gated(p, e, marks, blanks), Gated(p, e, others, blanks);
    forall f
      ensures Withheld(p, e, marks, f) <==> Withheld(p, e, others, f)
      ensures UnlockOf(p, marks, f) == UnlockOf(p, others, f)
    {
      MarkOrNot(p, e, marks, others, f);
    }
    GatedFields(p, e, marks, blanks);
    GatedFields(p, e, others, blanks);
    SameElements(OldMasked(a), OldMasked(b));
    GatedUnlock(p, e, marks, blanks);
    GatedUnlock(p, e, others, blanks);
  }

  lemma MarkOrNot(p: Policy, e: Record, marks: seq<string>, others: seq<string>, f: string)
    requires f in marks <==> f in others
    ensures Withheld(p, e, marks, f) <==> Withheld(p, e, others, f)
    ensures UnlockOf(p, marks, f) == UnlockOf(p, others, f)
  {
  }
}
