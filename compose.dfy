/** The strict-list eligibility policy. */
module Compose {
  import opened Wrappers
  import opened Types

  /** The allow-listed tags. The set is declared but no decision consults it. */
  const AllowTags: set<string> := {"auto", "partner", "community", "original-registry", "verified"}

  /** `isStrictEligible`: the verified-only policy, total over all tokens. */
  predicate IsStrictEligible(t: Token) {
    t.verified
  }

  /** Eligibility is decided by the verified flag alone: two tokens with the same
      flag are both eligible or both not, whatever their other fields. */
  lemma EligibilityDependsOnlyOnVerified(t: Token, u: Token)
    requires t.verified == u.verified
    ensures IsStrictEligible(t) <==> IsStrictEligible(u)
    ensures IsStrictEligible(t) <==> t.verified
  {
  }

  /** Tags do not help: an unverified token is not eligible even when it carries an
      allow-listed tag such as "partner" or "auto". */
  lemma AllowTagsIgnored(t: Token, tag: string)
    requires tag in AllowTags && !t.verified
    ensures !IsStrictEligible(t.(tags := Some([tag])))
    ensures !IsStrictEligible(t.(tags := Some(["partner", "auto"])))
  {
  }
}
