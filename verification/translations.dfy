/** Translations and the completion classifier.

    A Translation is one locale-specific rendering of a Key's source text.
    Only the attributes the statistics read are modelled. */
module Translations {
  import opened Wrappers

  /** Locales are opaque identifiers (RFC 5646 tags in the system), compared
      by equality only. */
  type Locale = string

  datatype Translation = Translation(
    targetLocale: Locale,
    sourceLocale: Locale,
    /** `Some(true)` approved, `Some(false)` rejected, `None` not reviewed. */
    approved: Option<bool>,
    /** Whether translated copy exists. */
    hasCopy: bool,
    /** Word count of the source copy. */
    words: nat)

  /** The three completion states a non-base Translation can be in. */
  datatype State = Approved | Pending | New

  /** A base Translation holds the original text, not translation work. */
  predicate IsBase(t: Translation)
  {
    t.targetLocale == t.sourceLocale
  }

  /** Completion state of a Translation: approval decides first; an
      unreviewed Translation is pending when it has copy and new otherwise.
      Rejected and drafted-but-unreviewed both land in `Pending`. */
  function Classify(t: Translation): (s: State)
    ensures s == Approved <==> t.approved == Some(true)
    ensures s == Pending <==> t.approved == Some(false) || (t.approved == None && t.hasCopy)
    ensures s == New <==> t.approved == None && !t.hasCopy
  {
    match t.approved
    case Some(true) => Approved
    case Some(false) => Pending
    case None => if t.hasCopy then Pending else New
  }
}
