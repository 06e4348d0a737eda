/** The aliases of one resource manager: a map from folded alias to resource, and one back. */
module ResourceAliases {
  import opened ResourceNames
  import opened Text
  import opened Visa

  datatype Entry = Entry(displayName: string, resource: Descriptor)

  datatype Resolved = Resolved(descriptor: Descriptor, alias: string)

  predicate AliasChar(c: char) {
    'A' <= c <= 'Z' || 'a' <= c <= 'z' || '0' <= c <= '9' || c == '_' || c == '-' || c == '.'
  }

  predicate ValidAlias(alias: string) {
    alias != "" && |alias| < MAX_NAME && ParseResource(alias).None? && forall k :: 0 <= k < |alias| ==> AliasChar(alias[k])
  }

  function Key(resource: Descriptor): string {
    Upper(resource.canonicalName)
  }

  /** Each map is the other's inverse, so no two aliases name one resource. */
  ghost predicate Inverse(aliases: map<string, Entry>, byResource: map<string, string>) {
    && (forall a :: a in aliases ==> Key(aliases[a].resource) in byResource && byResource[Key(aliases[a].resource)] == a)
    && (forall r :: r in byResource ==> byResource[r] in aliases && Key(aliases[byResource[r]].resource) == r)
    && (forall a :: a in aliases ==> Upper(aliases[a].displayName) == a)
  }

  /** `alias` now names `resource`, alone; every other alias is as it was. */
  ghost predicate Replaced(before: map<string, Entry>, after: map<string, Entry>, alias: string, resource: Descriptor) {
    && Upper(alias) in after && after[Upper(alias)] == Entry(alias, resource)
    && (forall a :: a != Upper(alias) ==> (a in after <==> a in before && Key(before[a].resource) != Key(resource)))
    && (forall a :: a != Upper(alias) && a in after ==> after[a] == before[a])
  }

  // Whole runs

  /** A setting that was accepted. */
  datatype Setting = Setting(alias: string, resource: Descriptor)

  function EntryOf(s: Setting): Entry {
    Entry(s.alias, s.resource)
  }

  /** The aliases after one more setting. */
  function After(before: map<string, Entry>, s: Setting): map<string, Entry> {
    (map a | a in before && Key(before[a].resource) != Key(s.resource) :: before[a])[Upper(s.alias) := EntryOf(s)]
  }

  function AfterAll(settings: seq<Setting>): map<string, Entry> {
    if settings == [] then map[] else After(AfterAll(settings[..|settings| - 1]), settings[|settings| - 1])
  }

  /** A later setting gives the alias to a resource, or the resource an alias. */
  predicate Overrides(later: Setting, s: Setting) {
    Upper(later.alias) == Upper(s.alias) || Key(later.resource) == Key(s.resource)
  }

  /** Nothing behind setting `i` overrides it. */
  ghost predicate Stands(settings: seq<Setting>, i: int) {
    0 <= i < |settings| && forall j :: i < j < |settings| ==> !Overrides(settings[j], settings[i])
  }

  lemma StandsMore(settings: seq<Setting>, s: Setting, i: int)
    ensures Stands(settings + [s], i) <==>
            i == |settings| || (Stands(settings, i) && !Overrides(s, settings[i]))
  {
    var more := settings + [s];
    assert more[|settings|] == s;
    assert forall j :: 0 <= j < |settings| ==> more[j] == settings[j];
  }

  /** Setting `i` stands, and it is the one that gave alias `a` its resource. */
  ghost predicate Sets(settings: seq<Setting>, i: int, a: string, entry: Entry) {
    Stands(settings, i) && Upper(settings[i].alias) == a && EntryOf(settings[i]) == entry
  }

  lemma SetsMore(settings: seq<Setting>, s: Setting, i: int, a: string, entry: Entry)
    ensures Sets(settings + [s], i, a, entry) <==>
            || (i == |settings| && Upper(s.alias) == a && EntryOf(s) == entry)
            || (Sets(settings, i, a, entry) && a != Upper(s.alias) && Key(entry.resource) != Key(s.resource))
  {
    StandsMore(settings, s, i);
    if 0 <= i < |settings| {
      assert (settings + [s])[i] == settings[i];
    }
  }

  /** What an alias names after any sequence of settings: the resource of the one setting of it that
      still stands, and nothing if there is none. */
  lemma {:induction false} AliasesExactly(settings: seq<Setting>, a: string, entry: Entry)
    ensures a in AfterAll(settings) && AfterAll(settings)[a] == entry <==> exists i :: Sets(settings, i, a, entry)
    decreases |settings|
  {
    if settings != [] {
      var before, s := settings[..|settings| - 1], settings[|settings| - 1];
      assert before + [s] == settings;
      AliasesExactly(before, a, entry);
      AfterOne(AfterAll(before), s, a, entry);
      forall i ensures Sets(settings, i, a, entry) <==>
                       || (i == |before| && Upper(s.alias) == a && EntryOf(s) == entry)
                       || (Sets(before, i, a, entry) && a != Upper(s.alias) && Key(entry.resource) != Key(s.resource))
      {
        SetsMore(before, s, i, a, entry);
      }
      if Upper(s.alias) == a && EntryOf(s) == entry {
        assert Sets(settings, |before|, a, entry);
      }
    }
  }

  lemma AfterOne(before: map<string, Entry>, s: Setting, a: string, entry: Entry)
    ensures a in After(before, s) && After(before, s)[a] == entry <==>
            || (Upper(s.alias) == a && EntryOf(s) == entry)
            || (a in before && before[a] == entry && a != Upper(s.alias) && Key(entry.resource) != Key(s.resource))
  {
  }

  /** After any sequence of settings no two aliases name one resource. */
  lemma AliasesAreUnique(settings: seq<Setting>, a: string, b: string)
    requires a in AfterAll(settings) && b in AfterAll(settings)
    requires Key(AfterAll(settings)[a].resource) == Key(AfterAll(settings)[b].resource)
    ensures a == b
  {
    var x, y := AfterAll(settings)[a], AfterAll(settings)[b];
    AliasesExactly(settings, a, x);
    AliasesExactly(settings, b, y);
    var i :| Sets(settings, i, a, x);
    var j :| Sets(settings, j, b, y);
    StandsLast(settings, i, j);
    StandsLast(settings, j, i);
  }

  lemma StandsLast(settings: seq<Setting>, i: int, j: int)
    requires Stands(settings, i) && 0 <= j < |settings| && Overrides(settings[j], settings[i])
    ensures j <= i
  {
  }

  /** Both maps after a replacement. */
  function ReplacedAliases(aliases: map<string, Entry>, byResource: map<string, string>, alias: string, resource: Descriptor)
    : map<string, Entry> {
    (if Key(resource) in byResource then aliases - {byResource[Key(resource)]} else aliases)
    [Upper(alias) := Entry(alias, resource)]
  }

  function ReplacedResources(aliases: map<string, Entry>, byResource: map<string, string>, alias: string,
                             resource: Descriptor): map<string, string> {
    (if Upper(alias) in aliases then byResource - {Key(aliases[Upper(alias)].resource)} else byResource)
    [Key(resource) := Upper(alias)]
  }

  lemma ReplacedInverse(aliases: map<string, Entry>, byResource: map<string, string>, alias: string, resource: Descriptor)
    requires Inverse(aliases, byResource)
    ensures Inverse(ReplacedAliases(aliases, byResource, alias, resource),
                    ReplacedResources(aliases, byResource, alias, resource))
  {
  }

  lemma ReplacedCorrectly(aliases: map<string, Entry>, byResource: map<string, string>, alias: string, resource: Descriptor)
    requires Inverse(aliases, byResource)
    ensures Replaced(aliases, ReplacedAliases(aliases, byResource, alias, resource), alias, resource)
  {
  }

  lemma ReplacedIsAfter(before: map<string, Entry>, after: map<string, Entry>, alias: string, resource: Descriptor)
    requires Replaced(before, after, alias, resource)
    ensures after == After(before, Setting(alias, resource))
  {
    var expected := After(before, Setting(alias, resource));
    forall a ensures a in after <==> a in expected {
    }
    forall a | a in after ensures after[a] == expected[a] {
    }
  }

  class Aliases {
    var closed: bool
    var aliases: map<string, Entry>
    var byResource: map<string, string>
    /** The settings accepted so far. */
    ghost var accepted: seq<Setting>

    ghost predicate Valid()
      reads this
    {
      Inverse(aliases, byResource) && aliases == AfterAll(accepted)
    }

    constructor ()
      ensures Valid() && !closed && accepted == []
    {
      closed, aliases, byResource, accepted := false, map[], map[], [];
    }

    /** `set_resource_alias`. The new alias replaces itself, and any other alias of the resource. */
    method SetResourceAlias(alias: string, resource: Descriptor) returns (done: bool)
      requires Valid()
      modifies this`aliases, this`byResource, this`accepted
      ensures Valid()
      ensures done <==> ValidAlias(alias) && !closed
      ensures accepted == old(accepted) + if done then [Setting(alias, resource)] else []
      ensures !done ==> aliases == old(aliases) && byResource == old(byResource)
      ensures done ==> Replaced(old(aliases), aliases, alias, resource)
    {
      if !ValidAlias(alias) {
        return false;
      }
      if closed {
        return false;
      }
      Replace(alias, resource);
      ReplacedIsAfter(old(aliases), aliases, alias, resource);
      ghost var setting := Setting(alias, resource);
      assert (accepted + [setting])[..|accepted|] == accepted;
      accepted := accepted + [setting];
      return true;
    }

    method Replace(alias: string, resource: Descriptor)
      requires Inverse(aliases, byResource)
      modifies this`aliases, this`byResource
      ensures Inverse(aliases, byResource) && Replaced(old(aliases), aliases, alias, resource)
    {
      ReplacedInverse(aliases, byResource, alias, resource);
      ReplacedCorrectly(aliases, byResource, alias, resource);
      var aliasKey, resourceKey := Upper(alias), Key(resource);
      if aliasKey in aliases {
        byResource := byResource - {Key(aliases[aliasKey].resource)};
      }
      if resourceKey in byResource {
        aliases := aliases - {byResource[resourceKey]};
      }
      aliases := aliases[aliasKey := Entry(alias, resource)];
      byResource := byResource[resourceKey := aliasKey];
    }

    /** `resolve_resource`: a name of its own, with the alias of its resource if there is one, or an
        alias in any case. */
    method ResolveResource(name: string) returns (resolved: Option<Resolved>)
      requires Valid()
      ensures closed ==> resolved.None?
      ensures !closed && ParseResource(name).Some? ==>
              && resolved.Some? && Some(resolved.value.descriptor) == ParseResource(name)
              && (resolved.value.alias != "" ==>
                    && Upper(resolved.value.alias) in aliases
                    && Key(aliases[Upper(resolved.value.alias)].resource) == Key(resolved.value.descriptor))
              && ((exists a :: a in aliases && Key(aliases[a].resource) == Key(resolved.value.descriptor)) ==>
                    Key(resolved.value.descriptor) in byResource
                    && resolved.value.alias == aliases[byResource[Key(resolved.value.descriptor)]].displayName)
      ensures !closed && ParseResource(name).None? ==>
              resolved == if Upper(name) in aliases
                          then Some(Resolved(aliases[Upper(name)].resource, aliases[Upper(name)].displayName)) else None
    {
      var direct := ParseResource(name);
      if closed {
        return None;
      }
      if direct.Some? {
        var alias := "";
        var key := Key(direct.value);
        if key in byResource {
          if byResource[key] in aliases {
            alias := aliases[byResource[key]].displayName;
          }
        }
        return Some(Resolved(direct.value, alias));
      }
      if Upper(name) !in aliases {
        return None;
      }
      return Some(Resolved(aliases[Upper(name)].resource, aliases[Upper(name)].displayName));
    }
  }
}
