/**
 What every posted text goes through: a hard cut at 279 characters, with
 no regard for word boundaries.
 */
module Posts {
  import opened Basics

  /** The longest text ever posted. */
  const Limit: nat := 279

  /** `text[:279]`. */
  function Truncate(text: string): (posted: string)
    ensures |posted| == Min(|text|, Limit)
    ensures posted == text[..|posted|]
  {
    if |text| <= Limit then text else text[..Limit]
  }

  /** A text that fits survives at the head of anything it starts. */
  lemma TruncateKeepsPrefix(head: string, tail: string)
    requires |head| <= Limit
    ensures |head| <= |Truncate(head + tail)|
    ensures Truncate(head + tail)[..|head|] == head
  {
    var posted := Truncate(head + tail);
    assert posted[..|head|] == (head + tail)[..|head|];
  }
}
