/** The pagination middleware: validates `from`/`to` and clamps the window size into [Min, Max]. */
module Pagination {
  import opened Http

  /** Smallest and largest page a client may request. */
  const Min := 5
  const Max := 50

  datatype PageError = FromNotNumber | ToNotNumber

  /** The window end after both clamps: raised to `from + Min`, then lowered to `from + Max`. */
  function Clamp(from: int, to: int): (r: int)
    ensures Min <= r - from <= Max
    ensures Min <= to - from <= Max ==> r == to
    ensures to - from < Min ==> r == from + Min
    ensures to - from > Max ==> r == from + Max
  {
    var raised := if to - from < Min then from + Min else to;
    if raised - from > Max then from + Max else raised
  }

  /** Clamping its own output changes nothing. */
  lemma ClampIdempotent(from: int, to: int)
    ensures Clamp(from, Clamp(from, to)) == Clamp(from, to)
  {
  }

  /** The middleware: `from` is checked before `to`; on success both are overwritten and `next()` runs. */
  method Paginate(req: Request) returns (o: Outcome<PageError>)
    modifies req`from, req`to
    ensures old(req.from).NaN? ==> o == Reply(FromNotNumber) && req.from == old(req.from) && req.to == old(req.to)
    ensures old(req.from).Num? && old(req.to).NaN? ==> o == Reply(ToNotNumber) && req.from == old(req.from) && req.to == old(req.to)
    ensures old(req.from).Num? && old(req.to).Num? ==>
      o == Next && req.from == old(req.from) && req.to == Num(Clamp(old(req.from).value, old(req.to).value))
  {
    if req.from.NaN? {
      return Reply(FromNotNumber);
    } else if req.to.NaN? {
      return Reply(ToNotNumber);
    }
    var from := req.from.value;
    var to := req.to.value;
    if to - from < Min {
      to := from + Min;
    }
    if to - from > Max {
      to := from + Max;
    }
    req.from := Num(from);
    req.to := Num(to);
    o := Next;
  }
}
