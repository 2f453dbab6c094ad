/**
 * `specialCases[normalized] || normalized` reads a property of a plain
 * object literal. A key the table does not own is looked up further along
 * the prototype chain, so a normalised title that names a member of
 * `Object.prototype` (`toString`, `constructor`, ...) yields that member, a
 * function or an object, which is truthy and is returned in place of a
 * string. This module models the lookup as written; `Titles.Lookup`, which
 * reads only the table's own entries, is the evidently intended one and the
 * one the rest of the model uses.
 */
module PrototypeLookup {
  import opened JsText
  import opened Titles

  /** What the lookup expression can evaluate to. */
  datatype LookupValue = Text(s: string) | InheritedMember(name: string)

  /** The properties every plain object inherits from `Object.prototype`. */
  const InheritedNames: set<string> := {
    "constructor", "hasOwnProperty", "isPrototypeOf", "propertyIsEnumerable",
    "toLocaleString", "toString", "valueOf", "__proto__",
    "__defineGetter__", "__defineSetter__", "__lookupGetter__", "__lookupSetter__"
  }

  /** `table[normalized] || normalized` on an object literal, prototype chain included. */
  function LookupAsWritten(table: map<string, string>, normalized: string): (v: LookupValue)
    ensures v.InheritedMember? <==> normalized !in table && normalized in InheritedNames
  {
    if normalized in table then
      if table[normalized] != "" then Text(table[normalized]) else Text(normalized)
    else if normalized in InheritedNames then InheritedMember(normalized)
    else Text(normalized)
  }

  /** `normalizeProjectTitle` as written. */
  function NormalizeAsWritten(title: string): LookupValue {
    LookupAsWritten(SpecialCases, StrippedTitle(title))
  }

  /** Away from the inherited names the two lookups agree. */
  lemma LookupsAgreeOffInheritedNames(table: map<string, string>, normalized: string)
    requires normalized in table || normalized !in InheritedNames
    ensures LookupAsWritten(table, normalized) == Text(Lookup(table, normalized))
  {
  }

  lemma AsWrittenAgreesOffInheritedNames(title: string)
    requires StrippedTitle(title) !in InheritedNames
    ensures NormalizeAsWritten(title) == Text(NormalizeProjectTitle(title))
  {
    LookupsAgreeOffInheritedNames(SpecialCases, StrippedTitle(title));
  }

  /**
   * The discrepancy: a work titled `toString` gets a function as its
   * project key where a string is intended; with own entries only it is
   * grouped under its own title.
   */
  lemma ToStringTitleIsNotAString()
    ensures NormalizeAsWritten("toString") == InheritedMember("toString")
    ensures NormalizeProjectTitle("toString") == "toString"
  {
    CleanTitleIsStripped("toString");
  }

  /** With own entries only, the key is a canonical spelling from the table or the stripped title. */
  lemma LookupIsOwnEntryOrKey(table: map<string, string>, normalized: string)
    requires forall k :: k in table ==> table[k] != ""
    ensures Lookup(table, normalized) == if normalized in table then table[normalized] else normalized
  {
  }

  lemma NormalizeIsCanonicalOrStripped(title: string)
    ensures var n := StrippedTitle(title);
      NormalizeProjectTitle(title) == if n in SpecialCases then SpecialCases[n] else n
  {
    SpecialCasesValuesNonEmpty();
    LookupIsOwnEntryOrKey(SpecialCases, StrippedTitle(title));
  }
}
