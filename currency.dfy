/** The currencies the bank supports (util/currency.go). */
module Currency {

  const USD: string := "USD"
  const EUR: string := "EUR"
  const RUB: string := "RUB"

  /** The supported currency codes, and no others. */
  const Supported: set<string> := {USD, EUR, RUB}

  /** True exactly for the three supported codes; the match is exact, so no
      case folding and no trimming. */
  function IsSupportedCurrency(currency: string): (r: bool)
    ensures r <==> currency in Supported
    ensures r ==> |currency| == 3 && forall i :: 0 <= i < 3 ==> 'A' <= currency[i] <= 'Z'
  {
    match currency
    case "USD" => true
    case "EUR" => true
    case "RUB" => true
    case _ => false
  }

  /** The three constants are pairwise distinct, so the supported set has three members. */
  lemma ConstantsDistinct()
    ensures USD != EUR && EUR != RUB && USD != RUB
    ensures |Supported| == 3
  {
    assert USD[0] != EUR[0] && EUR[0] != RUB[0] && USD[0] != RUB[0];
  }

  /** A code with a lower-case letter, or of any length other than three
      (a padded code, say), is not supported. */
  lemma RejectsInexactCodes(currency: string)
    requires |currency| != 3 || exists i :: 0 <= i < |currency| && 'a' <= currency[i] <= 'z'
    ensures !IsSupportedCurrency(currency)
  {
  }
}
