/**
 * `translateDomainCardActionsData`: overwrite, in place, the names and
 * descriptions of a domain card's actions with those of its translation
 * entry. Each translated action finds its target by the normalised name:
 * first in an index built once from the names before translation (a later
 * duplicate overwrites an earlier one), then, failing that, as the first
 * action whose current normalised name starts with the key.
 */
module Translate {
  import opened Wrappers
  import opened Text
  import opened Markup
  import opened Normalize
  import opened Model
  import opened Lookup

  /** How a call ends: normally, or with the TypeError of reading `act.name`
      on a `null` action while looking for a prefix match. */
  datatype Outcome = Completed | ThrewTypeError

  /** The value of one slot of `system.actions`. */
  datatype Slot = Missing | Present(name: Option<string>, description: Option<string>)

  function SlotOf(a: Action?): Slot
    reads a
  {
    if a == null then Missing else Present(a.name, a.description)
  }

  function Objects(slots: seq<Action?>): set<Action> {
    set a: Action | a in slots
  }

  /** The values of all slots, in order. */
  function View(slots: seq<Action?>): (v: seq<Slot>)
    reads Objects(slots)
    ensures |v| == |slots|
    ensures forall k :: 0 <= k < |slots| ==> v[k] == SlotOf(slots[k])
  {
    seq(|slots|, k requires 0 <= k < |slots| reads Objects(slots) => SlotOf(slots[k]))
  }

  /** No action object fills two slots (parsed JSON never shares objects). */
  predicate DistinctObjects(slots: seq<Action?>) {
    forall i, j :: 0 <= i < j < |slots| && slots[i] != null ==> slots[i] != slots[j]
  }

  function SlotsOf(data: Option<CardData>): seq<Action?> {
    if data.Some? && data.value.actions.Object? then data.value.actions.values else []
  }

  function NameOf(s: Slot): Option<string> {
    if s.Present? then s.name else None
  }

  function DescriptionOf(s: Slot): Option<string> {
    if s.Present? then s.description else None
  }

  /** `norm(act?.name)`. */
  function SlotKey(s: Slot): string {
    Norm(NameOf(s))
  }

  lemma NormOfAbsent()
    ensures Norm(None) == ""
  {
    assert StraightenQuotes("") == "";
    assert CollapseSpaces("") == "";
    assert StripTail("") == "";
    assert Trim("") == "";
  }

  /** The normalised names of the slots. */
  function Keys(view: seq<Slot>): (keys: seq<string>)
    ensures |keys| == |view| && forall i :: 0 <= i < |view| ==> keys[i] == SlotKey(view[i])
  {
    seq(|view|, i requires 0 <= i < |view| => SlotKey(view[i]))
  }

  /** `idxByName` after the first `n` keys: each non-empty key names the last
      of those positions that carries it. */
  function IndexUpTo(keys: seq<string>, n: nat): (m: map<string, nat>)
    requires n <= |keys|
    ensures forall k :: k in m ==> m[k] < n
  {
    if n == 0 then map[]
    else
      var m := IndexUpTo(keys, n - 1);
      if keys[n - 1] != "" then m[keys[n - 1] := n - 1] else m
  }

  /** The index holds exactly the non-empty keys among the first `n`, each
      mapped to the last position that carries it. */
  lemma {:induction false} IndexUpToMeaning(keys: seq<string>, n: nat)
    requires n <= |keys|
    ensures var m := IndexUpTo(keys, n);
      && (forall k :: k in m ==> k != "" && keys[m[k]] == k)
      && (forall k, i :: k in m && m[k] < i < n ==> keys[i] != k)
      && (forall i :: 0 <= i < n && keys[i] != "" ==> keys[i] in m)
  {
    if n > 0 {
      IndexUpToMeaning(keys, n - 1);
    }
  }

  /** Where a translated action lands: on slot `i`, nowhere, or on the
      TypeError raised at the `null` slot `at`. */
  datatype Resolution = Target(i: nat) | NoTarget | Throws(at: nat)

  /** The first slot index a resolution stops at (`n` when it went through all of them). */
  function StopOf(r: Resolution, n: nat): nat {
    match r
    case Target(i) => i
    case Throws(at) => at
    case NoTarget => n
  }

  /** `Object.values(actionsObj).find(act => norm(act.name).startsWith(key))`,
      over the current values `cur`, whose normalised names are `keys`, from
      slot `from` on. */
  function FindPrefix(cur: seq<Slot>, keys: seq<string>, key: string, from: nat): (r: Resolution)
    requires from <= |cur| == |keys|
    ensures r.Target? ==> from <= r.i < |cur| && cur[r.i].Present? && StartsWith(keys[r.i], key)
    ensures r.Throws? ==> from <= r.at < |cur| && cur[r.at].Missing?
    ensures forall i :: from <= i < StopOf(r, |cur|) ==> cur[i].Present? && !StartsWith(keys[i], key)
    decreases |cur| - from
  {
    if from == |cur| then NoTarget
    else if cur[from].Missing? then Throws(from)
    else if StartsWith(keys[from], key) then Target(from)
    else FindPrefix(cur, keys, key, from + 1)
  }

  /** Slots that are present and do not match can be skipped. */
  lemma {:induction false} FindPrefixSkips(cur: seq<Slot>, keys: seq<string>, key: string, m: nat)
    requires m <= |cur| == |keys|
    requires forall i :: 0 <= i < m ==> cur[i].Present? && !StartsWith(keys[i], key)
    ensures FindPrefix(cur, keys, key, 0) == FindPrefix(cur, keys, key, m)
  {
    if m > 0 {
      FindPrefixSkips(cur, keys, key, m - 1);
    }
  }

  /** The exact match in the index first, the prefix search otherwise. */
  function Resolve(cur: seq<Slot>, index: map<string, nat>, key: string): Resolution {
    if key in index then Target(index[key]) else FindPrefix(cur, Keys(cur), key, 0)
  }

  /** `a.key || a.name || ""`. */
  function KeyText(a: TrAction): string {
    if Truthy(a.key) then a.key.value else if Truthy(a.name) then a.name.value else ""
  }

  /** The translation of `a` written onto slot `i`. */
  function Apply(cur: seq<Slot>, i: nat, a: TrAction): (r: seq<Slot>)
    requires i < |cur|
    ensures |r| == |cur| && forall j :: 0 <= j < |cur| && j != i ==> r[j] == cur[j]
    ensures r[i].Present?
    ensures NameOf(r[i]) == if Truthy(a.name) then a.name else NameOf(cur[i])
    ensures DescriptionOf(r[i]) == if Truthy(a.description) then Some(Br(a.description)) else DescriptionOf(cur[i])
    ensures Truthy(a.description) ==> '\n' !in DescriptionOf(r[i]).value
  {
    var name := if Truthy(a.name) then a.name else NameOf(cur[i]);
    var description := if Truthy(a.description) then Some(Br(a.description)) else DescriptionOf(cur[i]);
    cur[i := Present(name, description)]
  }

  predicate IndexWithin(index: map<string, nat>, n: nat) {
    forall k :: k in index ==> index[k] < n
  }

  /** One pass of the loop over the entry's translated actions: the key of
      `a`, its target, and the write. */
  function Step(cur: seq<Slot>, index: map<string, nat>, a: TrAction): (r: (seq<Slot>, Outcome))
    requires IndexWithin(index, |cur|)
    ensures |r.0| == |cur|
  {
    var key := Norm(Some(KeyText(a)));
    if key == "" then (cur, Completed)
    else
      match Resolve(cur, index, key)
      case Throws(_) => (cur, ThrewTypeError)
      case NoTarget => (cur, Completed)
      case Target(i) => (Apply(cur, i, a), Completed)
  }

  /** The loop over the entry's translated actions, from the current slot
      values; it stops at the first TypeError. */
  function Steps(cur: seq<Slot>, index: map<string, nat>, trs: seq<TrAction>): (r: (seq<Slot>, Outcome))
    requires IndexWithin(index, |cur|)
    ensures |r.0| == |cur|
    decreases |trs|
  {
    if trs == [] then (cur, Completed)
    else
      var (next, outcome) := Step(cur, index, trs[0]);
      if outcome == ThrewTypeError then (next, outcome) else Steps(next, index, trs[1..])
  }

  /** The whole call, on values: the new slot values and how the call ends. */
  function TranslateCard(data: Option<CardData>, view: seq<Slot>, domains: Domains): (seq<Slot>, Outcome) {
    if data.None? || data.value.itemType != Some("domainCard") then (view, Completed)
    else
      var entry := EntryFor(data.value, domains);
      if entry.None? || entry.value.actions.None? || |entry.value.actions.value| == 0 then (view, Completed)
      else if !data.value.actions.Object? then (view, Completed)
      else Steps(view, IndexUpTo(Keys(view), |view|), entry.value.actions.value)
  }

  // ---------------------------------------------------------------------
  // What the value-level model promises

  /** Each guard leaves every action as it is: no card, not a domain card,
      no entry, an entry without a non-empty `actions` list, or no actions
      object on the card. */
  lemma GuardsChangeNothing(data: Option<CardData>, view: seq<Slot>, domains: Domains)
    requires || data.None? || data.value.itemType != Some("domainCard")
             || EntryFor(data.value, domains).None?
             || EntryFor(data.value, domains).value.actions.None?
             || |EntryFor(data.value, domains).value.actions.value| == 0
             || !data.value.actions.Object?
    ensures TranslateCard(data, view, domains) == (view, Completed)
  {
  }

  /** An exact hit in the index wins over the prefix search. */
  lemma ResolvePrefersExact(cur: seq<Slot>, index: map<string, nat>, key: string)
    requires key in index
    ensures Resolve(cur, index, key) == Target(index[key])
  {
  }

  /** Without an exact hit the target is the first slot whose current key
      starts with `key`; a `null` slot met before it throws. */
  lemma ResolveFallsBackToPrefix(cur: seq<Slot>, index: map<string, nat>, key: string)
    requires key !in index
    ensures var r := Resolve(cur, index, key);
      && (r.Target? ==> r.i < |cur| && cur[r.i].Present? && StartsWith(SlotKey(cur[r.i]), key))
      && (r.Throws? ==> r.at < |cur| && cur[r.at].Missing?)
      && (forall i :: 0 <= i < StopOf(r, |cur|) ==> cur[i].Present? && !StartsWith(SlotKey(cur[i]), key))
  {
  }

  /** A translated action whose key normalises to "" or that finds no target
      changes nothing. */
  lemma StepWithoutTargetChangesNothing(cur: seq<Slot>, index: map<string, nat>, a: TrAction)
    requires IndexWithin(index, |cur|)
    requires var key := Norm(Some(KeyText(a))); key == "" || Resolve(cur, index, key).NoTarget?
    ensures Step(cur, index, a) == (cur, Completed)
  {
  }

  /** A step writes the translation of `a` onto at most one slot. */
  lemma StepWritesOneSlot(cur: seq<Slot>, index: map<string, nat>, a: TrAction)
    requires IndexWithin(index, |cur|)
    ensures var next := Step(cur, index, a).0;
      next == cur || exists i :: 0 <= i < |cur| && next == Apply(cur, i, a)
  {
  }

  /** Every position in the index holds an action. */
  predicate IndexOnPresent(cur: seq<Slot>, index: map<string, nat>) {
    forall k :: k in index ==> index[k] < |cur| && cur[index[k]].Present?
  }

  /** The index built from the slots points only at actions: `null` has the empty key. */
  lemma IndexOfViewOnPresent(view: seq<Slot>)
    ensures IndexOnPresent(view, IndexUpTo(Keys(view), |view|))
  {
    var keys := Keys(view);
    IndexUpToMeaning(keys, |view|);
    NormOfAbsent();
  }

  /** One step neither fills nor empties a slot, keeps the index on actions,
      and throws only on a `null` slot. */
  lemma StepKeepsMissing(cur: seq<Slot>, index: map<string, nat>, a: TrAction)
    requires IndexWithin(index, |cur|) && IndexOnPresent(cur, index)
    ensures var (next, outcome) := Step(cur, index, a);
      && (forall i :: 0 <= i < |cur| ==> (next[i].Missing? <==> cur[i].Missing?))
      && IndexOnPresent(next, index)
      && (outcome == ThrewTypeError ==> exists i :: 0 <= i < |cur| && cur[i].Missing?)
  {
    var key := Norm(Some(KeyText(a)));
    if key != "" {
      var r := Resolve(cur, index, key);
      if r.Target? {
        var next := Apply(cur, r.i, a);
        assert cur[r.i].Present?;
        assert forall i :: 0 <= i < |cur| ==> (next[i].Missing? <==> cur[i].Missing?);
      }
    }
  }

  /** The whole loop neither fills nor empties a slot, and it ends with a
      TypeError only when some slot is `null`. */
  lemma {:induction false} StepsKeepsMissing(cur: seq<Slot>, index: map<string, nat>, trs: seq<TrAction>)
    requires IndexWithin(index, |cur|) && IndexOnPresent(cur, index)
    ensures var (next, outcome) := Steps(cur, index, trs);
      && (forall i :: 0 <= i < |cur| ==> (next[i].Missing? <==> cur[i].Missing?))
      && (outcome == ThrewTypeError ==> exists i :: 0 <= i < |cur| && cur[i].Missing?)
    decreases |trs|
  {
    if trs != [] {
      var (next, outcome) := Step(cur, index, trs[0]);
      StepKeepsMissing(cur, index, trs[0]);
      if outcome != ThrewTypeError {
        StepsKeepsMissing(next, index, trs[1..]);
      }
    }
  }

  /** A card whose actions are all objects never makes the call throw. */
  lemma TranslateCardThrowsOnlyOnNull(data: Option<CardData>, view: seq<Slot>, domains: Domains)
    ensures var (next, outcome) := TranslateCard(data, view, domains);
      && |next| == |view|
      && (forall i :: 0 <= i < |view| ==> (next[i].Missing? <==> view[i].Missing?))
      && (outcome == ThrewTypeError ==> exists i :: 0 <= i < |view| && view[i].Missing?)
  {
    var index := IndexUpTo(Keys(view), |view|);
    IndexOfViewOnPresent(view);
    if data.Some? && data.value.itemType == Some("domainCard") {
      var entry := EntryFor(data.value, domains);
      if entry.Some? && entry.value.actions.Some? {
        StepsKeepsMissing(view, index, entry.value.actions.value);
      }
    }
  }

  // ---------------------------------------------------------------------
  // `idxByName[keyEN]` as written

  /** The keys a plain `{}` answers from `Object.prototype` that a normalised
      (lower-case) key can spell. */
  const InheritedKeys: set<string> := {"constructor", "__proto__"}

  /** Target resolution as written: `idxByName[keyEN]` on a plain object also
      sees inherited properties. Such a hit is truthy, so the prefix search is
      skipped and the write goes to an object outside the card (`None`). */
  function ResolveAsWritten(cur: seq<Slot>, index: map<string, nat>, key: string): (r: Option<Resolution>)
    ensures key in index ==> r == Some(Target(index[key]))
    ensures key !in index && key in InheritedKeys ==> r.None?
    ensures key !in index && key !in InheritedKeys ==> r == Some(Resolve(cur, index, key))
  {
    if key in index then Some(Target(index[key]))
    else if key in InheritedKeys then None
    else Some(FindPrefix(cur, Keys(cur), key, 0))
  }

  /** An action named "Constructors" and a translation keyed "Constructor":
      the prefix search would find the action, but the lookup as written
      stops at `Object.prototype.constructor`. */
  lemma InheritedKeySkipsPrefix()
    ensures var cur := [Present(Some("Constructors"), None)];
      var index := IndexUpTo(Keys(cur), |cur|);
      var key := Norm(Some("Constructor"));
      && ResolveAsWritten(cur, index, key).None?
      && Resolve(cur, index, key) == Target(0)
  {
    var name := "constructors";
    var cur := [Present(Some("Constructors"), None)];
    ConstructorNames();
    assert Keys(cur) == [name];
    var index := IndexUpTo([name], 1);
    assert index == map[name := 0];
    assert "constructor" != name;
    assert StartsWith(name, "constructor");
    assert FindPrefix(cur, [name], "constructor", 0) == Target(0);
  }

  /** The two names of the witness above, normalised. */
  lemma ConstructorNames()
    ensures Norm(Some("Constructor")) == "constructor"
    ensures Norm(Some("Constructors")) == "constructors"
  {
    LowerOfCapitalised("Constructor", "constructor");
    LowerOfCapitalised("Constructors", "constructors");
    NormOfAsciiWord("Constructor");
    NormOfAsciiWord("Constructors");
  }

  /** An ASCII word that differs from a lower-case ASCII word only in its
      capital first letter is a word whose lower-case form is that word. */
  lemma LowerOfCapitalised(w: string, l: string)
    requires |w| == |l| > 0 && 'a' <= l[0] <= 'z' && w[0] as int == l[0] as int - 0x20
    requires forall i :: 1 <= i < |w| ==> w[i] == l[i] && 'a' <= l[i] <= 'z'
    ensures forall i :: 0 <= i < |w| ==> 'a' <= w[i] <= 'z' || 'A' <= w[i] <= 'Z'
    ensures Lower(w) == l
  {
    assert forall i :: 0 <= i < |w| ==> Lower(w)[i] == l[i];
  }

  /** `norm(act?.name)` for the action in slot `i`. */
  function SlotKeyAt(slots: seq<Action?>, i: nat): string
    requires i < |slots|
    reads Objects(slots)
  {
    SlotKey(SlotOf(slots[i]))
  }

  /** `keys` holds the normalised name of every slot. The trigger keeps the
      normalisation out of sight until a single slot is asked for. */
  predicate KeyedBy(slots: seq<Action?>, keys: seq<string>)
    reads Objects(slots)
  {
    |keys| == |slots| && forall i {:trigger SlotKeyAt(slots, i)} :: 0 <= i < |slots| ==> keys[i] == SlotKeyAt(slots, i)
  }

  /** The first loop: `idxByName`, built from the names the actions have before
      any translation. */
  method BuildIndex(slots: seq<Action?>, ghost keys: seq<string>) returns (idxByName: map<string, Action>)
    requires KeyedBy(slots, keys)
    ensures var index := IndexUpTo(keys, |slots|);
      && idxByName.Keys == index.Keys
      && forall k :: k in idxByName ==> idxByName[k] == slots[index[k]]
  {
    ghost var index: map<string, nat> := map[];
    idxByName := map[];
    var i := 0;
    while i < |slots|
      invariant i <= |slots| && KeyedBy(slots, keys)
      invariant index == IndexUpTo(keys, i)
      invariant idxByName.Keys == index.Keys
      invariant forall k :: k in idxByName ==> index[k] < |slots| && idxByName[k] == slots[index[k]]
    {
      var en := KeyAt(slots, i, keys);
      if en != "" {
        idxByName := idxByName[en := slots[i]];
        index := index[en := i];
      }
      i := i + 1;
    }
  }

  /** `norm(act?.name)` for slot `i`. Reading changes nothing, so `keys`
      still describes the slots afterwards. */
  method KeyAt(slots: seq<Action?>, i: nat, ghost keys: seq<string>) returns (en: string)
    requires i < |slots| && KeyedBy(slots, keys)
    ensures en == keys[i]
    ensures slots[i] == null ==> en == ""
    ensures KeyedBy(slots, keys)
  {
    ghost var s := SlotKeyAt(slots, i);
    NormOfAbsent();
    en := Norm(if slots[i] == null then None else slots[i].name);
  }

  /** The `find` fallback: the first action whose current normalised name
      starts with `keyEN`; `threw` when a `null` action comes first. */
  method FindByPrefix(slots: seq<Action?>, ghost keys: seq<string>, keyEN: string) returns (target: Action?, ghost t: nat, threw: bool)
    requires KeyedBy(slots, keys)
    ensures var r := FindPrefix(View(slots), keys, keyEN, 0);
      && (threw <==> r.Throws?)
      && (target != null <==> r.Target?)
      && (r.Target? ==> t == r.i && target == slots[t])
  {
    ghost var cur := View(slots);
    assert forall i :: 0 <= i < |slots| ==> (cur[i].Missing? <==> slots[i] == null);
    target, t, threw := null, 0, false;
    var m := 0;
    while m < |slots|
      invariant m <= |slots| && KeyedBy(slots, keys)
      invariant forall i :: 0 <= i < m ==> cur[i].Present? && !StartsWith(keys[i], keyEN)
    {
      var act := slots[m];
      if act == null {
        FindPrefixSkips(cur, keys, keyEN, m);
        threw := true;
        return;
      }
      var en := KeyAt(slots, m, keys);
      if StartsWith(en, keyEN) {
        FindPrefixSkips(cur, keys, keyEN, m);
        target, t := act, m;
        return;
      }
      m := m + 1;
    }
    FindPrefixSkips(cur, keys, keyEN, m);
  }

  /** Overwrite the target's name and description (the latter through `br`)
      with the non-empty ones of `a`. */
  method ApplyTo(slots: seq<Action?>, target: Action, ghost t: nat, a: TrAction)
    requires DistinctObjects(slots) && t < |slots| && slots[t] == target
    modifies target`name, target`description
    ensures View(slots) == Apply(old(View(slots)), t, a)
  {
    ghost var before := View(slots);
    if Truthy(a.name) {
      target.name := a.name;
    }
    if Truthy(a.description) {
      target.description := Some(Br(a.description));
    }
    assert View(slots) == Apply(before, t, a);
  }

  /** One pass of the second loop: resolve the target of `a` (exact key
      first, prefix search otherwise) and write the translation onto it. */
  method TranslateAction(slots: seq<Action?>, idxByName: map<string, Action>, ghost index: map<string, nat>, a: TrAction)
    returns (threw: bool)
    requires DistinctObjects(slots) && IndexWithin(index, |slots|)
    requires idxByName.Keys == index.Keys && forall k :: k in idxByName ==> idxByName[k] == slots[index[k]]
    modifies Objects(slots)`name, Objects(slots)`description
    ensures (View(slots), if threw then ThrewTypeError else Completed) == Step(old(View(slots)), index, a)
  {
    threw := false;
    var keyEN := Norm(Some(KeyText(a)));
    if keyEN == "" {
      return;
    }
    var target: Action?;
    ghost var t: nat;
    if keyEN in idxByName {
      target, t := idxByName[keyEN], index[keyEN];
    } else {
      ghost var keys := Keys(View(slots));
      target, t, threw := FindByPrefix(slots, keys, keyEN);
      if threw {
        return;
      }
    }
    if target != null {
      ApplyTo(slots, target, t, a);
    }
  }

  /** The second loop: every translated action in turn, stopping at the
      first TypeError. */
  method TranslateActions(slots: seq<Action?>, idxByName: map<string, Action>, ghost index: map<string, nat>, trs: seq<TrAction>)
    returns (outcome: Outcome)
    requires DistinctObjects(slots) && IndexWithin(index, |slots|)
    requires idxByName.Keys == index.Keys && forall k :: k in idxByName ==> idxByName[k] == slots[index[k]]
    modifies Objects(slots)`name, Objects(slots)`description
    ensures (View(slots), outcome) == Steps(old(View(slots)), index, trs)
  {
    ghost var result := Steps(View(slots), index, trs);
    var j := 0;
    while j < |trs|
      invariant j <= |trs|
      invariant Steps(View(slots), index, trs[j..]) == result
    {
      assert trs[j..][1..] == trs[j + 1..];
      var threw := TranslateAction(slots, idxByName, index, trs[j]);
      if threw {
        return ThrewTypeError;
      }
      j := j + 1;
    }
    return Completed;
  }

  method TranslateDomainCardActionsData(data: Option<CardData>, domains: Domains) returns (outcome: Outcome)
    requires DistinctObjects(SlotsOf(data))
    modifies Objects(SlotsOf(data))`name, Objects(SlotsOf(data))`description
    ensures (View(SlotsOf(data)), outcome) == TranslateCard(data, old(View(SlotsOf(data))), domains)
  {
    if data.None? || data.value.itemType != Some("domainCard") {
      return Completed;
    }
    var card := data.value;
    var trEntry := PickDomainEntryFor(card, domains);
    if trEntry.None? || trEntry.value.actions.None? || |trEntry.value.actions.value| == 0 {
      return Completed;
    }
    if !card.actions.Object? {
      return Completed;
    }
    outcome := TranslateSlots(card.actions.values, trEntry.value.actions.value);
  }

  /** Past the guards: build the index from the current names, then run the
      second loop. */
  method TranslateSlots(slots: seq<Action?>, trs: seq<TrAction>) returns (outcome: Outcome)
    requires DistinctObjects(slots)
    modifies Objects(slots)`name, Objects(slots)`description
    ensures (View(slots), outcome) == Steps(old(View(slots)), IndexUpTo(Keys(old(View(slots))), |slots|), trs)
  {
    ghost var keys := Keys(View(slots));
    ghost var index := IndexUpTo(keys, |slots|);
    var idxByName := BuildIndex(slots, keys);
    outcome := TranslateActions(slots, idxByName, index, trs);
  }
}
