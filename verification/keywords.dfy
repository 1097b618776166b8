/** The keyword registry. Its word list lives in a file that is not part of
    this model, so the registry is a parameter: the `KeyMap` built from that
    list. Membership is case-sensitive key lookup. */
module Keywords {
  import opened Seqs
  import opened Strings
  import KeyMaps

  /** The registry object: an identity map from keyword to keyword. */
  type Registry = map<string, string>

  /** The registry built from a word list. */
  function FromList(words: seq<string>): Registry {
    KeyMaps.Keymap(words)
  }

  /** `isKeyword(s)`: case-sensitive membership. */
  function IsKeyword(reg: Registry, s: string): (b: bool)
    ensures b <==> s in reg.Keys
    ensures b && IsUpper(s) ==> ToUpper(s) in reg
  {
    if IsUpper(s) then
      UpperFixed(s);
      s in reg
    else
      s in reg
  }

  /** Every keyword the builder, tables and databases emit themselves. */
  const Used: set<string> := {
    "CREATE", "TABLE", "DATABASE", "IF", "NOT", "EXISTS", "DROP", "USE",
    "SELECT", "FROM", "WHERE", "AND", "OR", "IS", "INSERT", "INTO"
  }

  /** The registry knows every keyword of `Used`. */
  predicate Covers(reg: Registry) {
    Used <= reg.Keys
  }

  /** Upper-casing a registered word gives a registered word, as it does
      for a registry of upper-case keywords. */
  predicate UpperClosed(reg: Registry) {
    forall k :: k in reg ==> ToUpper(k) in reg
  }

  /** A registry built from a list covers the used keywords exactly when the
      list names all of them. */
  lemma FromListCovers(words: seq<string>)
    ensures Covers(FromList(words)) <==> Used <= Elems(words)
  {
  }

  /** The used keywords are already upper case. */
  lemma UsedAreUpper()
    ensures forall k :: k in Used ==> IsUpper(k) && ToUpper(k) == k
  {
    forall k | k in Used
      ensures ToUpper(k) == k
    {
      UpperFixed(k);
    }
  }

  /** A registry of upper-case words is closed under upper-casing. */
  lemma UpperWordsAreClosed(reg: Registry)
    requires forall k :: k in reg ==> IsUpper(k)
    ensures UpperClosed(reg)
  {
    forall k | k in reg
      ensures ToUpper(k) in reg
    {
      UpperFixed(k);
    }
  }
}
