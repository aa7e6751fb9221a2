/**
 * `pickDomainEntryFor`: the translation entry of a card, found by key or,
 * failing that, by its (possibly already translated) display name.
 */
module Lookup {
  import opened Wrappers
  import opened Text
  import opened Model

  /** `data.original_name || data.slug || data.name`, when that is truthy. */
  function LookupKey(data: CardData): (k: Option<string>)
    ensures k.Some? ==> k.value != ""
    ensures k.None? <==> !Truthy(data.originalName) && !Truthy(data.slug) && !Truthy(data.name)
    ensures Truthy(data.originalName) ==> k == data.originalName
    ensures !Truthy(data.originalName) && Truthy(data.slug) ==> k == data.slug
    ensures !Truthy(data.originalName) && !Truthy(data.slug) && Truthy(data.name) ==> k == data.name
  {
    if Truthy(data.originalName) then data.originalName
    else if Truthy(data.slug) then data.slug
    else if Truthy(data.name) then data.name
    else None
  }

  /** `domains[k]` when that is a (truthy) entry. */
  function Get(d: seq<(string, Option<Entry>)>, k: string): (r: Option<Entry>)
    ensures r.Some? ==> exists i :: 0 <= i < |d| && d[i] == (k, r)
  {
    if d == [] then None
    else if d[0].0 == k then d[0].1
    else Get(d[1..], k)
  }

  /** With distinct keys, `Get` finds the value stored under the key. */
  lemma {:induction false} GetIsValueOfKey(d: seq<(string, Option<Entry>)>, i: nat)
    requires DistinctKeys(d) && i < |d|
    ensures Get(d, d[i].0) == d[i].1
  {
    if i > 0 {
      assert d[0].0 != d[i].0;
      GetIsValueOfKey(d[1..], i - 1);
    }
  }

  /** `(entry?.name ?? "").toString().trim()` equals `ru`. */
  predicate NamedAs(entry: Option<Entry>, ru: string) {
    Trim(TextOf(if entry.Some? then entry.value.name else None)) == ru
  }

  /** The position of the first entry, in iteration order, named `ru` (or `|d|`). */
  function FirstNamed(d: seq<(string, Option<Entry>)>, ru: string): (i: nat)
    ensures i <= |d|
    ensures i < |d| ==> NamedAs(d[i].1, ru)
    ensures forall j :: 0 <= j < i ==> !NamedAs(d[j].1, ru)
  {
    if d == [] then 0
    else if NamedAs(d[0].1, ru) then 0
    else 1 + FirstNamed(d[1..], ru)
  }

  /** The entry `pickDomainEntryFor` returns, as a value. */
  function EntryFor(data: CardData, domains: Domains): Option<Entry> {
    var k := LookupKey(data);
    if k.Some? && Get(domains, k.value).Some? then Get(domains, k.value)
    else
      var ru := Trim(TextOf(data.name));
      if ru == "" then None
      else
        var i := FirstNamed(domains, ru);
        if i < |domains| then domains[i].1 else None
  }

  method PickDomainEntryFor(data: CardData, domains: Domains) returns (r: Option<Entry>)
    ensures r == EntryFor(data, domains)
  {
    var byKey := LookupKey(data);
    if byKey.Some? {
      var hit := Get(domains, byKey.value);
      if hit.Some? {
        return hit;
      }
    }
    var ru := Trim(TextOf(data.name));
    if ru == "" {
      return None;
    }
    var i := 0;
    while i < |domains|
      invariant i <= |domains|
      invariant forall j :: 0 <= j < i ==> !NamedAs(domains[j].1, ru)
    {
      if NamedAs(domains[i].1, ru) {
        return domains[i].1;
      }
      i := i + 1;
    }
    return None;
  }

  /** A key hit wins: when the lookup key names a non-null entry, that entry is
      the result, whatever the names of the entries are. */
  lemma EntryForByKey(data: CardData, domains: Domains, i: nat)
    requires i < |domains| && LookupKey(data) == Some(domains[i].0) && domains[i].1.Some?
    ensures EntryFor(data, domains) == domains[i].1
  {
    GetIsValueOfKey(domains, i);
  }

  /** Without a key hit, the result is the first entry, in iteration order,
      whose trimmed name is the card's trimmed name; none when that name is
      blank or no entry carries it. */
  lemma EntryForByName(data: CardData, domains: Domains)
    requires forall i :: 0 <= i < |domains| && LookupKey(data) == Some(domains[i].0) ==> domains[i].1.None?
    ensures var ru := Trim(TextOf(data.name));
      EntryFor(data, domains) == if ru == "" || FirstNamed(domains, ru) == |domains| then None
                                 else domains[FirstNamed(domains, ru)].1
  {
  }
}
