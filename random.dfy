/** Test-data generators (util/random.go). The process-wide random source is
    replaced by the values it returns: every call `rand.Intn(k)` or
    `rand.Int63n(k)` contributes one draw `d` with `0 <= d < k`, and a
    generator receives the draws it consumes as a parameter. */
module Random {
  import opened Currency

  const Alphabet: string := "abcdefghijklmnopqrstuvwxyz"

  /** Each value is a possible result of `rand.Intn(k)`. */
  predicate AreDraws(draws: seq<int>, k: int)
  {
    forall i :: 0 <= i < |draws| ==> 0 <= draws[i] < k
  }

  predicate IsLowerLetter(c: char)
  {
    'a' <= c <= 'z'
  }

  /** The string of alphabet letters picked by `draws`, one letter per draw. */
  function Letters(draws: seq<int>): (s: string)
    requires AreDraws(draws, |Alphabet|)
    ensures |s| == |draws|
    ensures forall i :: 0 <= i < |s| ==> s[i] == Alphabet[draws[i]] && IsLowerLetter(s[i])
  {
    if draws == [] then []
    else Letters(draws[..|draws| - 1]) + [Alphabet[draws[|draws| - 1]]]
  }

  /** Number of loop iterations of `for i := 0; i < n; i++`. */
  function Iterations(n: int): nat
  {
    if n < 0 then 0 else n
  }

  /** RandomInt: a value between min and max inclusive. */
  function RandomInt(min: int, max: int, draw: int): (r: int)
    requires min <= max
    requires 0 <= draw < max - min + 1
    ensures min <= r <= max
  {
    min + draw
  }

  /** Every value of the range is produced by some draw. */
  lemma RandomIntCoversRange(min: int, max: int, v: int)
    requires min <= v <= max
    ensures exists draw :: 0 <= draw < max - min + 1 && RandomInt(min, max, draw) == v
  {
    assert RandomInt(min, max, v - min) == v;
  }

  /** RandomString: appends one random alphabet letter per iteration. */
  method RandomString(n: int, draws: seq<int>) returns (s: string)
    requires |draws| == Iterations(n)
    requires AreDraws(draws, |Alphabet|)
    ensures s == Letters(draws)
    ensures |s| == Iterations(n) && forall i :: 0 <= i < |s| ==> IsLowerLetter(s[i])
  {
    s := [];
    var i := 0;
    while i < n
      invariant 0 <= i <= |draws|
      invariant n >= 0 ==> i <= n
      invariant s == Letters(draws[..i])
    {
      var c := Alphabet[draws[i]];  // draws[i] stands for rand.Intn(len(alphabet))
      assert draws[..i + 1][..i] == draws[..i];
      s := s + [c];
      i := i + 1;
    }
    assert draws[..i] == draws;
  }

  /** RandomOwner: a random 15-letter name. */
  function RandomOwner(draws: seq<int>): (owner: string)
    requires |draws| == 15 && AreDraws(draws, |Alphabet|)
    ensures |owner| == 15
    ensures forall i :: 0 <= i < |owner| ==> IsLowerLetter(owner[i])
  {
    Letters(draws)
  }

  /** RandomMoney: RandomInt(0, 1000), so zero is a possible amount. */
  function RandomMoney(draw: int): (money: int)
    requires 0 <= draw < 1001
    ensures 0 <= money <= 1000
  {
    RandomInt(0, 1000, draw)
  }

  /** Every amount from 0 to 1000 can be drawn: an opening balance may be
      zero, or below any later transfer amount. */
  lemma RandomMoneyCoversRange(money: int)
    requires 0 <= money <= 1000
    ensures exists draw :: 0 <= draw < 1001 && RandomMoney(draw) == money
  {
    assert RandomMoney(money) == money;
  }

  /** RandomCurrency: one of the list USD, RUB, EUR. */
  function RandomCurrency(draw: int): (currency: string)
    requires 0 <= draw < 3
    ensures IsSupportedCurrency(currency)
  {
    [USD, RUB, EUR][draw]
  }

  /** Every supported currency can be drawn. */
  lemma RandomCurrencyCoversSupported(currency: string)
    requires IsSupportedCurrency(currency)
    ensures exists draw :: 0 <= draw < 3 && RandomCurrency(draw) == currency
  {
    if currency == USD {
      assert RandomCurrency(0) == currency;
    } else if currency == RUB {
      assert RandomCurrency(1) == currency;
    } else {
      assert RandomCurrency(2) == currency;
    }
  }

  /** RandomEmail: ten letters, '@', five letters, '.', two letters. */
  function RandomEmail(local: seq<int>, domain: seq<int>, tld: seq<int>): (email: string)
    requires |local| == 10 && AreDraws(local, |Alphabet|)
    requires |domain| == 5 && AreDraws(domain, |Alphabet|)
    requires |tld| == 2 && AreDraws(tld, |Alphabet|)
    ensures |email| == 19
    ensures email[10] == '@' && email[16] == '.'
    ensures forall i :: 0 <= i < 19 && i != 10 && i != 16 ==> IsLowerLetter(email[i])
  {
    Letters(local) + "@" + Letters(domain) + "." + Letters(tld)
  }
}
