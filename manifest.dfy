/** The `counts` block of the manifest both dataset builds write next to their artifacts. */
module Manifest {
  import Seqs
  import AT = AliasTable
  import LI = LetterIndex

  /** `counts`: records emitted, keys of the alias table, letters of the index, ambiguous aliases. */
  datatype Counts = Counts(records: nat, aliases: nat, letters: nat, ambiguousAliases: nat)

  /** `records.length`, `Object.keys(aliasToCanonical).length`, `Object.keys(letterIndex).length`, `ambiguousAliases.length` */
  function Of(records: nat, table: map<string, string>, ix: LI.Index, ambiguous: seq<string>): Counts {
    Counts(records, |table.Keys|, |ix.order|, |ambiguous|)
  }

  /**
   * For a well-formed index and an ambiguous list without repetitions, the manifest counts one
   * letter per list of the index and one entry per ambiguous key.
   */
  lemma CountsSpec(records: nat, table: map<string, string>, ix: LI.Index, ambiguous: seq<string>)
    requires LI.WellFormed(ix) && AT.Distinct(ambiguous)
    ensures Of(records, table, ix, ambiguous).letters == |ix.buckets.Keys|
    ensures Of(records, table, ix, ambiguous).ambiguousAliases == |set k | k in ambiguous|
  {
    LI.OrderCountsKeys(ix);
    Seqs.DistinctCard(ambiguous);
  }
}
