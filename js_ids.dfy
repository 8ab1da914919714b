/** Identifier values as they travel through the JSON stores: the server mints
    numeric ids (`Date.now()`), while ids read from a URL or a form arrive as
    strings. Handlers compare them either strictly (`===`) or through
    `toString()`, and the two comparisons disagree. */
module JsIds {
  import opened Options
  import opened JsText

  /** `String(n)` for an integer. */
  function IntText(n: int): (r: string)
    ensures ParseInt(r) == Some(n)
  {
    if n >= 0 then (ParseIntDecimal(n); Decimal(n))
    else (NegativeText(-n); "-" + Decimal(-n))
  }

  lemma NegativeText(m: nat)
    requires m > 0
    ensures ParseInt("-" + Decimal(m)) == Some(-(m as int))
  {
    var d := Decimal(m);
    var s := "-" + d;
    assert !IsSpace(s[0]);
    assert s[1..] == d;
    DigitPrefixAll(d);
    DecimalRoundTrip(m);
  }

  datatype JsId = Num(n: int) | Str(s: string) {
    /** JavaScript truthiness: `0` and `""` are falsy. */
    predicate Truthy() {
      match this
      case Num(n) => n != 0
      case Str(s) => s != []
    }

    /** `id.toString()`. */
    function Text(): string {
      match this
      case Num(n) => IntText(n)
      case Str(s) => s
    }
  }

  /** Two numeric ids print alike only when they are equal. */
  lemma NumTextInjective(a: int, b: int)
    ensures Num(a).Text() == Num(b).Text() <==> a == b
  {
    assert ParseInt(IntText(a)) == Some(a);
    assert ParseInt(IntText(b)) == Some(b);
  }

  /** `toString` equality identifies a number with its decimal string, which
      strict equality keeps apart. */
  lemma LooseAndStrictDiffer(n: int)
    ensures Num(n).Text() == Str(IntText(n)).Text()
    ensures Num(n) != Str(IntText(n))
  {
  }
}
