/** The visible-shop list of `GET /api/filters/shops`
    (app/api/filters/shops/route.ts): an authorization check, then a
    role-dependent selection from the full shop list. */
module ShopsRoute {
  import opened Common
  import opened Permissions

  /** One entry of the `ubigger_enum` shop list: a display name and the shop id as text. */
  datatype Shop = Shop(name: string, value: string)

  /** The JSON reply: `{ shops }`, or an error with its HTTP status. */
  datatype Response = Shops(shops: seq<Shop>) | Failure(status: int, error: string)

  const UnauthorizedStatus: int := 401
  const ServerErrorStatus: int := 500
  const UnauthorizedMessage: string := "未授权访问：缺少用户认证信息"
  const FetchFailedMessage: string := "Failed to fetch shops"

  function DigitChar(d: nat): char
    requires d < 10
  {
    (('0' as int) + d) as char
  }

  /** The decimal digits of `n`, most significant first. */
  function Digits(n: nat): (s: string)
    ensures |s| >= 1 && (n >= 10 ==> |s| >= 2)
    ensures forall i :: 0 <= i < |s| ==> '0' <= s[i] <= '9'
  {
    if n < 10 then [DigitChar(n)] else Digits(n / 10) + [DigitChar(n % 10)]
  }

  /** `n.toString()` for an integer `n`. */
  function DecimalString(n: int): string {
    if n < 0 then "-" + Digits(-n) else Digits(n)
  }

  lemma {:induction false} DigitsInjective(a: nat, b: nat)
    requires Digits(a) == Digits(b)
    ensures a == b
  {
    var da, db := Digits(a), Digits(b);
    if a >= 10 && b >= 10 {
      var qa, ra, qb, rb := a / 10, a % 10, b / 10, b % 10;
      assert da == Digits(qa) + [DigitChar(ra)] && db == Digits(qb) + [DigitChar(rb)];
      assert da[..|da| - 1] == Digits(qa) && db[..|db| - 1] == Digits(qb);
      DigitsInjective(qa, qb);
      assert da[|da| - 1] == DigitChar(ra) && db[|db| - 1] == DigitChar(rb);
      assert a == 10 * qa + ra && b == 10 * qb + rb;
    } else if a < 10 && b < 10 {
      assert da[0] == DigitChar(a) && db[0] == DigitChar(b);
    }
  }

  lemma DigitsStartWithDigit(n: nat)
    ensures Digits(n)[0] != '-'
  {
  }

  /** Distinct integers have distinct decimal strings. */
  lemma DecimalStringInjective(a: int, b: int)
    requires DecimalString(a) == DecimalString(b)
    ensures a == b
  {
    var sa, sb := DecimalString(a), DecimalString(b);
    if a < 0 && b < 0 {
      assert sa[1..] == Digits(-a) && sb[1..] == Digits(-b);
      DigitsInjective(-a, -b);
    } else if a >= 0 && b >= 0 {
      DigitsInjective(a, b);
    } else if a < 0 {
      DigitsStartWithDigit(b);
      assert false;
    } else {
      DigitsStartWithDigit(a);
      assert false;
    }
  }

  /** `a` is `b` with some entries removed and the rest kept in order. */
  predicate IsSubsequence(a: seq<Shop>, b: seq<Shop>)
    decreases |b|
  {
    if a == [] then true
    else if b == [] then false
    else if a[0] == b[0] then IsSubsequence(a[1..], b[1..])
    else IsSubsequence(a, b[1..])
  }

  /** `allShops.filter(shop => shop.value === id)`. */
  function ShopsWithValue(allShops: seq<Shop>, id: string): (r: seq<Shop>)
    ensures forall s :: s in r <==> s in allShops && s.value == id
    ensures IsSubsequence(r, allShops)
  {
    if allShops == [] then []
    else
      assert allShops == [allShops[0]] + allShops[1..];
      if allShops[0].value == id then [allShops[0]] + ShopsWithValue(allShops[1..], id)
      else
        var rest := ShopsWithValue(allShops[1..], id);
        SubsequenceOfTail(rest, allShops);
        rest
  }

  /** The filter judges each shop on its own: one more shop is kept exactly when its value matches. */
  lemma {:induction false} ShopsWithValueAppend(allShops: seq<Shop>, s: Shop, id: string)
    ensures ShopsWithValue(allShops + [s], id) == ShopsWithValue(allShops, id) + (if s.value == id then [s] else [])
    decreases |allShops|
  {
    var a := allShops + [s];
    ShopsWithValueCons(a, id);
    if allShops != [] {
      assert a[0] == allShops[0] && a[1..] == allShops[1..] + [s];
      ShopsWithValueCons(allShops, id);
      ShopsWithValueAppend(allShops[1..], s, id);
    } else {
      assert a[1..] == [];
    }
  }

  /** The filter keeps every copy of a matching shop and no copy of any other. */
  lemma {:induction false} ShopsWithValueCounts(allShops: seq<Shop>, id: string)
    ensures forall s :: multiset(ShopsWithValue(allShops, id))[s] == if s.value == id then multiset(allShops)[s] else 0
    decreases |allShops|
  {
    if allShops != [] {
      var x, rest := allShops[0], allShops[1..];
      assert allShops == [x] + rest;
      ShopsWithValueCons(allShops, id);
      ShopsWithValueCounts(rest, id);
      assert multiset(allShops) == multiset([x]) + multiset(rest);
    }
  }

  lemma ShopsWithValueCons(allShops: seq<Shop>, id: string)
    requires allShops != []
    ensures ShopsWithValue(allShops, id) ==
              (if allShops[0].value == id then [allShops[0]] else []) + ShopsWithValue(allShops[1..], id)
  {
  }

  lemma {:induction false} SubsequenceOfTail(a: seq<Shop>, b: seq<Shop>)
    requires b != [] && IsSubsequence(a, b[1..])
    ensures IsSubsequence(a, b)
    decreases |b|, 0
  {
    if a != [] && a[0] == b[0] {
      SubsequenceDropHead(a, b[1..]);
    }
  }

  lemma {:induction false} SubsequenceDropHead(a: seq<Shop>, c: seq<Shop>)
    requires a != [] && IsSubsequence(a, c)
    ensures IsSubsequence(a[1..], c)
    decreases |c|, 1
  {
    if a[0] == c[0] {
      SubsequenceOfTail(a[1..], c);
    } else {
      SubsequenceDropHead(a, c[1..]);
      SubsequenceOfTail(a[1..], c);
    }
  }

  /** `!user.shopId`: absent or zero. */
  predicate ShopIdFalsy(user: User) {
    user.shopId.None? || user.shopId.value == 0
  }

  /** The handler's decision. `user` is the decoded request header (`None`:
      missing or invalid); `fetched` is what `getShops()` returned (`None`: it threw). */
  function ShopsFor(user: Option<User>, fetched: Option<seq<Shop>>): (r: Response)
    ensures user.None? ==> r == Failure(UnauthorizedStatus, UnauthorizedMessage)
    ensures user.Some? && IsManager(user.value) && ShopIdFalsy(user.value) ==> r == Shops([])
    ensures user.Some? && IsManager(user.value) && !ShopIdFalsy(user.value) && fetched.Some? ==>
              && r == Shops(ShopsWithValue(fetched.value, DecimalString(user.value.shopId.value)))
              && IsSubsequence(r.shops, fetched.value)
              && forall s :: s in r.shops <==> s in fetched.value && s.value == DecimalString(user.value.shopId.value)
    ensures user.Some? && !IsManager(user.value) && fetched.Some? ==> r == Shops(fetched.value)
    ensures user.Some? && !(IsManager(user.value) && ShopIdFalsy(user.value)) && fetched.None? ==>
              r == Failure(ServerErrorStatus, FetchFailedMessage)
  {
    if user.None? then Failure(UnauthorizedStatus, UnauthorizedMessage)
    else
      var u := user.value;
      if IsAdmin(u) then
        (if fetched.Some? then Shops(fetched.value) else Failure(ServerErrorStatus, FetchFailedMessage))
      else if IsManager(u) then
        if ShopIdFalsy(u) then Shops([])
        else if fetched.Some? then Shops(ShopsWithValue(fetched.value, DecimalString(u.shopId.value)))
        else Failure(ServerErrorStatus, FetchFailedMessage)
      else if fetched.Some? then Shops(fetched.value)
      else Failure(ServerErrorStatus, FetchFailedMessage)
  }

  /** A manager's account always has a non-zero shop id or none at all, so the
      empty-list branch is taken exactly when the account has no shop id. */
  lemma ManagerShopIdFalsyMeansAbsent(user: User)
    requires IsManager(user)
    ensures ShopIdFalsy(user) <==> user.shopId.None?
  {
  }

  /** Managers of different shops are shown disjoint shop lists. */
  lemma ManagersSeeDisjointShops(u1: User, u2: User, all: seq<Shop>)
    requires IsManager(u1) && IsManager(u2) && !ShopIdFalsy(u1) && !ShopIdFalsy(u2)
    requires u1.shopId != u2.shopId
    ensures forall s :: s in ShopsFor(Some(u1), Some(all)).shops ==> s !in ShopsFor(Some(u2), Some(all)).shops
  {
    forall s | s in ShopsFor(Some(u1), Some(all)).shops && s in ShopsFor(Some(u2), Some(all)).shops
      ensures false
    {
      DecimalStringInjective(u1.shopId.value, u2.shopId.value);
    }
  }
}
