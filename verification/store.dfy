/**
 The persisted client store: the cart, the theme flag, the admin session
 flag and four id-keyed collections (menu items, customers, testimonials,
 promotional banners).
 */
module Store {
  import opened Wrappers
  import Seqs

  const AdminPassword := "flor2024"

  // ---------------------------------------------------------------- entities

  datatype Badge = Bestseller | New | Spicy

  /** A dish; `price` is a JavaScript number. */
  datatype MenuItem = MenuItem(
    id: string,
    name: string,
    description: string,
    price: real,
    category: string,
    image: string,
    badges: Option<seq<Badge>>,
    available: bool)

  /** A cart line: the dish as it was when first added, the quantity and an optional note. */
  datatype CartItem = CartItem(item: MenuItem, quantity: int, observations: Option<string>)

  datatype Customer = Customer(
    id: string,
    name: string,
    email: string,
    phone: string,
    birthday: Option<string>,
    preferences: Option<string>,
    promoCode: Option<string>,
    registeredAt: string)

  datatype Testimonial = Testimonial(
    id: string,
    name: string,
    rating: int,
    comment: string,
    date: string,
    approved: bool,
    avatar: Option<string>)

  datatype PromoBanner = PromoBanner(
    id: string,
    title: string,
    description: string,
    image: string,
    active: bool,
    validUntil: Option<string>)

  function MenuId(m: MenuItem): string { m.id }
  function CartId(c: CartItem): string { c.item.id }
  function TestimonialId(t: Testimonial): string { t.id }
  function BannerId(b: PromoBanner): string { b.id }

  // ---------------------------------------------------------------- id-keyed collections

  predicate HasId<T>(s: seq<T>, idOf: T -> string, id: string) {
    exists i :: 0 <= i < |s| && idOf(s[i]) == id
  }

  /** No two entries share an id. */
  predicate UniqueIds<T>(s: seq<T>, idOf: T -> string) {
    forall i, j :: 0 <= i < j < |s| ==> idOf(s[i]) != idOf(s[j])
  }

  /** `s.filter(x => x.id !== id)` */
  function DeleteById<T(!new)>(s: seq<T>, idOf: T -> string, id: string): (r: seq<T>)
    ensures !HasId(r, idOf, id)
    ensures forall x :: x in r <==> x in s && idOf(x) != id
    ensures forall x :: multiset(r)[x] == if idOf(x) != id then multiset(s)[x] else 0
    ensures !HasId(s, idOf, id) ==> r == s
  {
    var r := Seqs.Filter(s, x => idOf(x) != id);
    assert forall x :: multiset(r)[x] == if idOf(x) != id then multiset(s)[x] else 0 by {
      forall x ensures multiset(r)[x] == if idOf(x) != id then multiset(s)[x] else 0 {
        Seqs.FilterMultiplicity(s, y => idOf(y) != id, x);
      }
    }
    if !HasId(s, idOf, id) then
      Seqs.FilterKeepsAll(s, x => idOf(x) != id);
      r
    else r
  }

  /** Deleting keeps the survivors in order. */
  lemma DeleteKeepsOrder<T(!new)>(s: seq<T>, idOf: T -> string, id: string)
    ensures Seqs.IsSubsequence(DeleteById(s, idOf, id), s)
  {
    Seqs.FilterIsSubsequence(s, x => idOf(x) != id);
  }

  /** Deleting from a longer collection: the last entry survives exactly when its id differs, together with every copy before it. */
  lemma DeleteByIdStep<T(!new)>(s: seq<T>, x: T, idOf: T -> string, id: string)
    ensures DeleteById([], idOf, id) == []
    ensures DeleteById(s + [x], idOf, id) == DeleteById(s, idOf, id) + (if idOf(x) != id then [x] else [])
  {
    Seqs.FilterAppend(s, [x], y => idOf(y) != id);
  }

  /** Deleting preserves id uniqueness. */
  lemma {:induction false} DeleteKeepsUnique<T(!new)>(s: seq<T>, idOf: T -> string, id: string)
    requires UniqueIds(s, idOf)
    ensures UniqueIds(DeleteById(s, idOf, id), idOf)
  {
    var r := DeleteById(s, idOf, id);
    forall i, j | 0 <= i < j < |r| ensures idOf(r[i]) != idOf(r[j]) {
      FilterIndexMonotone(s, x => idOf(x) != id, i, j);
      var a, b :| 0 <= a < b < |s| && s[a] == r[i] && s[b] == r[j];
    }
  }

  /** Two positions of a filtered sequence come from two increasing positions of the original. */
  lemma {:induction false} FilterIndexMonotone<T(!new)>(s: seq<T>, p: T -> bool, i: int, j: int)
    requires 0 <= i < j < |Seqs.Filter(s, p)|
    ensures exists a, b :: 0 <= a < b < |s| && s[a] == Seqs.Filter(s, p)[i] && s[b] == Seqs.Filter(s, p)[j]
    decreases |s|
  {
    var r := Seqs.Filter(s, p);
    var tail := Seqs.Filter(s[1..], p);
    if p(s[0]) {
      assert r == [s[0]] + tail;
      if i == 0 {
        assert r[j] == tail[j - 1] && r[j] in tail;
        var b :| 0 <= b < |s[1..]| && s[1..][b] == r[j];
        assert s[0] == r[0] && s[b + 1] == r[j];
      } else {
        FilterIndexMonotone(s[1..], p, i - 1, j - 1);
        var a, b :| 0 <= a < b < |s[1..]| && s[1..][a] == tail[i - 1] && s[1..][b] == tail[j - 1];
        assert s[a + 1] == r[i] && s[b + 1] == r[j];
      }
    } else {
      assert r == tail;
      FilterIndexMonotone(s[1..], p, i, j);
      var a, b :| 0 <= a < b < |s[1..]| && s[1..][a] == tail[i] && s[1..][b] == tail[j];
      assert s[a + 1] == r[i] && s[b + 1] == r[j];
    }
  }

  /** `[...s, x]` */
  function Append<T>(s: seq<T>, x: T): (r: seq<T>)
    ensures |r| == |s| + 1 && r[|s|] == x && r[..|s|] == s
  {
    s + [x]
  }

  /** Deleting an entry just appended with a fresh id gives back the collection. */
  lemma DeleteUndoesAppend<T(!new)>(s: seq<T>, idOf: T -> string, x: T)
    requires !HasId(s, idOf, idOf(x))
    ensures DeleteById(Append(s, x), idOf, idOf(x)) == s
  {
    var p := y => idOf(y) != idOf(x);
    Seqs.FilterAppend(s, [x], p);
    Seqs.FilterKeepsAll(s, p);
    assert Seqs.Filter([x], p) == [] by {
      assert [x][1..] == [];
    }
  }

  /** Appending an entry with a fresh id preserves uniqueness. */
  lemma AppendKeepsUnique<T>(s: seq<T>, idOf: T -> string, x: T)
    requires UniqueIds(s, idOf) && !HasId(s, idOf, idOf(x))
    ensures UniqueIds(Append(s, x), idOf)
  {
  }

  /** `s.map(x => x.id === id ? f(x) : x)` */
  function UpdateById<T>(s: seq<T>, idOf: T -> string, id: string, f: T -> T): (r: seq<T>)
    ensures |r| == |s|
    ensures forall i :: 0 <= i < |s| && idOf(s[i]) != id ==> r[i] == s[i]
    ensures forall i :: 0 <= i < |s| && idOf(s[i]) == id ==> r[i] == f(s[i])
  {
    seq(|s|, i requires 0 <= i < |s| => if idOf(s[i]) == id then f(s[i]) else s[i])
  }

  // ---------------------------------------------------------------- patches

  /** `Partial<MenuItem>`: a `Some` field is a key present in the update object. */
  datatype MenuPatch = MenuPatch(
    id: Option<string>,
    name: Option<string>,
    description: Option<string>,
    price: Option<real>,
    category: Option<string>,
    image: Option<string>,
    badges: Option<seq<Badge>>,
    available: Option<bool>)

  const EmptyMenuPatch := MenuPatch(None, None, None, None, None, None, None, None)

  /** A field after `{ ...before, ...patch }`: the patch's value when the key is present, else the old value. */
  predicate Overrides<T(==)>(patch: Option<T>, before: T, after: T) {
    (patch.Some? ==> after == patch.value) && (patch.None? ==> after == before)
  }

  /** `{ ...m, ...p }` */
  function ApplyMenuPatch(m: MenuItem, p: MenuPatch): (r: MenuItem)
    ensures p == EmptyMenuPatch ==> r == m
    ensures Overrides(p.id, m.id, r.id) && Overrides(p.name, m.name, r.name)
    ensures Overrides(p.description, m.description, r.description) && Overrides(p.price, m.price, r.price)
    ensures Overrides(p.category, m.category, r.category) && Overrides(p.image, m.image, r.image)
    ensures p.badges.Some? ==> r.badges == p.badges
    ensures p.badges.None? ==> r.badges == m.badges
    ensures Overrides(p.available, m.available, r.available)
  {
    MenuItem(
      p.id.GetOr(m.id), p.name.GetOr(m.name), p.description.GetOr(m.description), p.price.GetOr(m.price),
      p.category.GetOr(m.category), p.image.GetOr(m.image),
      if p.badges.Some? then p.badges else m.badges,
      p.available.GetOr(m.available))
  }

  /** Merging the same changes twice is merging them once. */
  lemma ApplyMenuPatchIdempotent(m: MenuItem, p: MenuPatch)
    ensures ApplyMenuPatch(ApplyMenuPatch(m, p), p) == ApplyMenuPatch(m, p)
  {
  }

  datatype TestimonialPatch = TestimonialPatch(
    id: Option<string>,
    name: Option<string>,
    rating: Option<int>,
    comment: Option<string>,
    date: Option<string>,
    approved: Option<bool>,
    avatar: Option<string>)

  const EmptyTestimonialPatch := TestimonialPatch(None, None, None, None, None, None, None)

  /** `{ ...t, ...p }` */
  function ApplyTestimonialPatch(t: Testimonial, p: TestimonialPatch): (r: Testimonial)
    ensures p == EmptyTestimonialPatch ==> r == t
    ensures Overrides(p.id, t.id, r.id) && Overrides(p.name, t.name, r.name)
    ensures Overrides(p.rating, t.rating, r.rating) && Overrides(p.comment, t.comment, r.comment)
    ensures Overrides(p.date, t.date, r.date) && Overrides(p.approved, t.approved, r.approved)
    ensures p.avatar.Some? ==> r.avatar == p.avatar
    ensures p.avatar.None? ==> r.avatar == t.avatar
  {
    Testimonial(
      p.id.GetOr(t.id), p.name.GetOr(t.name), p.rating.GetOr(t.rating), p.comment.GetOr(t.comment),
      p.date.GetOr(t.date), p.approved.GetOr(t.approved), if p.avatar.Some? then p.avatar else t.avatar)
  }

  lemma ApplyTestimonialPatchIdempotent(t: Testimonial, p: TestimonialPatch)
    ensures ApplyTestimonialPatch(ApplyTestimonialPatch(t, p), p) == ApplyTestimonialPatch(t, p)
  {
  }

  datatype BannerPatch = BannerPatch(
    id: Option<string>,
    title: Option<string>,
    description: Option<string>,
    image: Option<string>,
    active: Option<bool>,
    validUntil: Option<string>)

  const EmptyBannerPatch := BannerPatch(None, None, None, None, None, None)

  /** `{ ...b, ...p }` */
  function ApplyBannerPatch(b: PromoBanner, p: BannerPatch): (r: PromoBanner)
    ensures p == EmptyBannerPatch ==> r == b
    ensures Overrides(p.id, b.id, r.id) && Overrides(p.title, b.title, r.title)
    ensures Overrides(p.description, b.description, r.description) && Overrides(p.image, b.image, r.image)
    ensures Overrides(p.active, b.active, r.active)
    ensures p.validUntil.Some? ==> r.validUntil == p.validUntil
    ensures p.validUntil.None? ==> r.validUntil == b.validUntil
  {
    PromoBanner(
      p.id.GetOr(b.id), p.title.GetOr(b.title), p.description.GetOr(b.description), p.image.GetOr(b.image),
      p.active.GetOr(b.active), if p.validUntil.Some? then p.validUntil else b.validUntil)
  }

  lemma ApplyBannerPatchIdempotent(b: PromoBanner, p: BannerPatch)
    ensures ApplyBannerPatch(ApplyBannerPatch(b, p), p) == ApplyBannerPatch(b, p)
  {
  }

  // ---------------------------------------------------------------- collection operations

  function UpdateMenuItem(items: seq<MenuItem>, id: string, p: MenuPatch): (r: seq<MenuItem>)
    ensures |r| == |items|
    ensures forall i :: 0 <= i < |items| ==> r[i] == if items[i].id == id then ApplyMenuPatch(items[i], p) else items[i]
  {
    UpdateById(items, MenuId, id, m => ApplyMenuPatch(m, p))
  }

  /** The same update applied twice leaves what one application left. */
  lemma UpdateMenuItemIdempotent(items: seq<MenuItem>, id: string, p: MenuPatch)
    ensures UpdateMenuItem(UpdateMenuItem(items, id, p), id, p) == UpdateMenuItem(items, id, p)
  {
    var once := UpdateMenuItem(items, id, p);
    var twice := UpdateMenuItem(once, id, p);
    forall i | 0 <= i < |items| ensures twice[i] == once[i] {
      ApplyMenuPatchIdempotent(items[i], p);
    }
  }

  /** An update with no keys changes nothing. */
  lemma EmptyMenuUpdate(items: seq<MenuItem>, id: string)
    ensures UpdateMenuItem(items, id, EmptyMenuPatch) == items
  {
  }

  function UpdateTestimonial(ts: seq<Testimonial>, id: string, p: TestimonialPatch): (r: seq<Testimonial>)
    ensures |r| == |ts|
    ensures forall i :: 0 <= i < |ts| ==> r[i] == if ts[i].id == id then ApplyTestimonialPatch(ts[i], p) else ts[i]
  {
    UpdateById(ts, TestimonialId, id, t => ApplyTestimonialPatch(t, p))
  }

  function UpdatePromoBanner(bs: seq<PromoBanner>, id: string, p: BannerPatch): (r: seq<PromoBanner>)
    ensures |r| == |bs|
    ensures forall i :: 0 <= i < |bs| ==> r[i] == if bs[i].id == id then ApplyBannerPatch(bs[i], p) else bs[i]
  {
    UpdateById(bs, BannerId, id, b => ApplyBannerPatch(b, p))
  }

  /** Approving a testimonial flips only its `approved` flag. */
  lemma ApproveTestimonial(ts: seq<Testimonial>, id: string)
    ensures var r := UpdateTestimonial(ts, id, EmptyTestimonialPatch.(approved := Some(true)));
      forall i :: 0 <= i < |ts| ==> r[i] == if ts[i].id == id then ts[i].(approved := true) else ts[i]
  {
  }

  // ---------------------------------------------------------------- cart

  /** Total quantity held under one id. */
  function QuantityOf(cart: seq<CartItem>, id: string): int {
    if cart == [] then 0
    else (if CartId(cart[0]) == id then cart[0].quantity else 0) + QuantityOf(cart[1..], id)
  }

  lemma {:induction false} QuantityOfAppend(a: seq<CartItem>, b: seq<CartItem>, id: string)
    ensures QuantityOf(a + b, id) == QuantityOf(a, id) + QuantityOf(b, id)
  {
    if a == [] {
      assert a + b == b;
    } else {
      assert (a + b)[1..] == a[1..] + b;
      QuantityOfAppend(a[1..], b, id);
    }
  }

  lemma {:induction false} QuantityOfAbsent(cart: seq<CartItem>, id: string)
    requires !HasId(cart, CartId, id)
    ensures QuantityOf(cart, id) == 0
  {
    if cart != [] {
      assert !HasId(cart[1..], CartId, id) by {
        forall i | 0 <= i < |cart[1..]| ensures CartId(cart[1..][i]) != id {
          assert cart[1..][i] == cart[i + 1];
        }
      }
      QuantityOfAbsent(cart[1..], id);
    }
  }

  /**
   An entry with the dish's id gets the quantity added and its note
   replaced (every such entry, should there be several); otherwise one
   line is appended.
   */
  function AddToCart(cart: seq<CartItem>, item: MenuItem, quantity: int, observations: Option<string>): (r: seq<CartItem>)
    ensures HasId(cart, CartId, item.id) ==> |r| == |cart| && forall i :: 0 <= i < |cart| ==>
      r[i] == if CartId(cart[i]) == item.id
              then cart[i].(quantity := cart[i].quantity + quantity, observations := observations)
              else cart[i]
    ensures !HasId(cart, CartId, item.id) ==> r == cart + [CartItem(item, quantity, observations)]
  {
    if HasId(cart, CartId, item.id) then
      UpdateById(cart, CartId, item.id, (c: CartItem) => c.(quantity := c.quantity + quantity, observations := observations))
    else
      Append(cart, CartItem(item, quantity, observations))
  }

  /** Adding to the cart never creates a second line for an id. */
  lemma AddToCartKeepsUnique(cart: seq<CartItem>, item: MenuItem, quantity: int, observations: Option<string>)
    requires UniqueIds(cart, CartId)
    ensures UniqueIds(AddToCart(cart, item, quantity, observations), CartId)
  {
    if !HasId(cart, CartId, item.id) {
      AppendKeepsUnique(cart, CartId, CartItem(item, quantity, observations));
    }
  }

  lemma QuantityOfSplit(cart: seq<CartItem>, k: int, id: string)
    requires 0 <= k < |cart|
    ensures QuantityOf(cart, id) ==
      QuantityOf(cart[..k], id) + (if CartId(cart[k]) == id then cart[k].quantity else 0) + QuantityOf(cart[k + 1..], id)
  {
    assert cart == cart[..k] + ([cart[k]] + cart[k + 1..]);
    QuantityOfAppend(cart[..k], [cart[k]] + cart[k + 1..], id);
    assert ([cart[k]] + cart[k + 1..])[1..] == cart[k + 1..];
  }

  /** Carts that agree line by line on ids, and on quantities under `id`, hold the same quantity under `id`. */
  lemma {:induction false} QuantityOfAgree(a: seq<CartItem>, b: seq<CartItem>, id: string)
    requires |a| == |b|
    requires forall i :: 0 <= i < |a| ==> CartId(a[i]) == CartId(b[i]) && (CartId(a[i]) == id ==> a[i].quantity == b[i].quantity)
    ensures QuantityOf(a, id) == QuantityOf(b, id)
  {
    if a != [] {
      QuantityOfAgree(a[1..], b[1..], id);
    }
  }

  /** With ids unique, adding `quantity` units of a dish adds exactly that many under its id. */
  lemma AddToCartQuantity(cart: seq<CartItem>, item: MenuItem, quantity: int, observations: Option<string>)
    requires UniqueIds(cart, CartId)
    ensures QuantityOf(AddToCart(cart, item, quantity, observations), item.id) == QuantityOf(cart, item.id) + quantity
  {
    var r := AddToCart(cart, item, quantity, observations);
    if HasId(cart, CartId, item.id) {
      var k :| 0 <= k < |cart| && CartId(cart[k]) == item.id;
      QuantityOfSplit(cart, k, item.id);
      QuantityOfSplit(r, k, item.id);
      assert r[..k] == cart[..k] && r[k + 1..] == cart[k + 1..] by {
        assert forall i :: 0 <= i < |cart| && i != k ==> CartId(cart[i]) != item.id;
      }
    } else {
      QuantityOfAppend(cart, [CartItem(item, quantity, observations)], item.id);
      assert [CartItem(item, quantity, observations)][1..] == [];
    }
  }

  /** Adding a dish leaves the quantity under every other id unchanged. */
  lemma AddToCartOtherQuantity(cart: seq<CartItem>, item: MenuItem, quantity: int, observations: Option<string>, other: string)
    requires other != item.id
    ensures QuantityOf(AddToCart(cart, item, quantity, observations), other) == QuantityOf(cart, other)
  {
    var r := AddToCart(cart, item, quantity, observations);
    if HasId(cart, CartId, item.id) {
      QuantityOfAgree(r, cart, other);
    } else {
      QuantityOfAppend(cart, [CartItem(item, quantity, observations)], other);
      assert [CartItem(item, quantity, observations)][1..] == [];
    }
  }

  function RemoveFromCart(cart: seq<CartItem>, id: string): (r: seq<CartItem>)
    ensures !HasId(r, CartId, id)
    ensures forall c :: c in r <==> c in cart && CartId(c) != id
    ensures forall c :: multiset(r)[c] == if CartId(c) != id then multiset(cart)[c] else 0
    ensures QuantityOf(r, id) == 0
  {
    var r := DeleteById(cart, CartId, id);
    QuantityOfAbsent(r, id);
    r
  }

  /** A quantity of zero or less removes the line; otherwise the matching lines take the new quantity and note. */
  function UpdateCartItem(cart: seq<CartItem>, id: string, quantity: int, observations: Option<string>): (r: seq<CartItem>)
    ensures quantity <= 0 ==> r == RemoveFromCart(cart, id)
    ensures quantity > 0 ==> |r| == |cart| && forall i :: 0 <= i < |cart| ==>
      r[i] == if CartId(cart[i]) == id then cart[i].(quantity := quantity, observations := observations) else cart[i]
  {
    if quantity <= 0 then RemoveFromCart(cart, id)
    else UpdateById(cart, CartId, id, (c: CartItem) => c.(quantity := quantity, observations := observations))
  }

  /** After setting a positive quantity on a line, that is the quantity held under its id. */
  lemma UpdateCartItemQuantity(cart: seq<CartItem>, id: string, quantity: int, observations: Option<string>)
    requires UniqueIds(cart, CartId) && HasId(cart, CartId, id) && quantity > 0
    ensures QuantityOf(UpdateCartItem(cart, id, quantity, observations), id) == quantity
  {
    var r := UpdateCartItem(cart, id, quantity, observations);
    var k :| 0 <= k < |cart| && CartId(cart[k]) == id;
    QuantityOfSplit(r, k, id);
    assert !HasId(r[..k], CartId, id) by {
      forall i | 0 <= i < k ensures CartId(r[..k][i]) != id {
        assert r[..k][i] == r[i] && CartId(r[i]) == CartId(cart[i]);
      }
    }
    assert !HasId(r[k + 1..], CartId, id) by {
      var tail := r[k + 1..];
      forall i | 0 <= i < |tail| ensures CartId(tail[i]) != id {
        assert tail[i] == r[k + 1 + i] && CartId(r[k + 1 + i]) == CartId(cart[k + 1 + i]);
      }
    }
    QuantityOfAbsent(r[..k], id);
    QuantityOfAbsent(r[k + 1..], id);
  }

  // ---------------------------------------------------------------- whole state

  datatype AppState = AppState(
    cart: seq<CartItem>,
    isDarkMode: bool,
    isAdminAuthenticated: bool,
    menuItems: seq<MenuItem>,
    customers: seq<Customer>,
    testimonials: seq<Testimonial>,
    promoBanners: seq<PromoBanner>)

  const InitialState := AppState([], false, false, [], [], [], [])

  datatype Action =
    | AddToCartAction(item: MenuItem, quantity: int, observations: Option<string>)
    | UpdateCartItemAction(id: string, quantity: int, observations: Option<string>)
    | RemoveFromCartAction(id: string)
    | ClearCart
    | ToggleDarkMode
    | AdminLogin(password: string)
    | AdminLogout
    | SetMenuItems(items: seq<MenuItem>)
    | AddMenuItem(menuItem: MenuItem)
    | UpdateMenuItemAction(id: string, menuPatch: MenuPatch)
    | DeleteMenuItem(id: string)
    | AddCustomer(customer: Customer)
    | AddTestimonial(testimonial: Testimonial)
    | UpdateTestimonialAction(id: string, testimonialPatch: TestimonialPatch)
    | DeleteTestimonial(id: string)
    | AddPromoBanner(banner: PromoBanner)
    | UpdatePromoBannerAction(id: string, bannerPatch: BannerPatch)
    | DeletePromoBanner(id: string)
  {
    predicate IsCartAction() {
      AddToCartAction? || UpdateCartItemAction? || RemoveFromCartAction? || ClearCart?
    }
    predicate IsMenuAction() {
      SetMenuItems? || AddMenuItem? || UpdateMenuItemAction? || DeleteMenuItem?
    }
    predicate IsTestimonialAction() {
      AddTestimonial? || UpdateTestimonialAction? || DeleteTestimonial?
    }
    predicate IsBannerAction() {
      AddPromoBanner? || UpdatePromoBannerAction? || DeletePromoBanner?
    }
  }

  /** The state after an action, and the action's return value (only a login attempt returns one). */
  datatype Dispatched = Dispatched(state: AppState, returned: bool)

  /** `adminLogin`: true and signed in exactly for the fixed password; otherwise nothing changes. */
  function AdminLoginOp(s: AppState, password: string): (r: Dispatched)
    ensures r.returned <==> password == AdminPassword
    ensures r.returned ==> r.state == s.(isAdminAuthenticated := true)
    ensures !r.returned ==> r.state == s
  {
    if password == AdminPassword then Dispatched(s.(isAdminAuthenticated := true), true) else Dispatched(s, false)
  }

  function CartOp(cart: seq<CartItem>, a: Action): seq<CartItem>
    requires a.IsCartAction()
  {
    match a
    case AddToCartAction(item, q, o) => AddToCart(cart, item, q, o)
    case UpdateCartItemAction(id, q, o) => UpdateCartItem(cart, id, q, o)
    case RemoveFromCartAction(id) => RemoveFromCart(cart, id)
    case ClearCart => []
  }

  function MenuOp(items: seq<MenuItem>, a: Action): seq<MenuItem>
    requires a.IsMenuAction()
  {
    match a
    case SetMenuItems(new_items) => new_items
    case AddMenuItem(m) => Append(items, m)
    case UpdateMenuItemAction(id, p) => UpdateMenuItem(items, id, p)
    case DeleteMenuItem(id) => DeleteById(items, MenuId, id)
  }

  function TestimonialOp(ts: seq<Testimonial>, a: Action): seq<Testimonial>
    requires a.IsTestimonialAction()
  {
    match a
    case AddTestimonial(t) => Append(ts, t)
    case UpdateTestimonialAction(id, p) => UpdateTestimonial(ts, id, p)
    case DeleteTestimonial(id) => DeleteById(ts, TestimonialId, id)
  }

  function BannerOp(bs: seq<PromoBanner>, a: Action): seq<PromoBanner>
    requires a.IsBannerAction()
  {
    match a
    case AddPromoBanner(b) => Append(bs, b)
    case UpdatePromoBannerAction(id, p) => UpdatePromoBanner(bs, id, p)
    case DeletePromoBanner(id) => DeleteById(bs, BannerId, id)
  }

  /** One store action: the new state and the action's return value (only a login attempt returns one). */
  function Dispatch(s: AppState, a: Action): (r: Dispatched)
    ensures a.IsCartAction() ==> r.state == s.(cart := r.state.cart)
    ensures a.IsMenuAction() ==> r.state == s.(menuItems := r.state.menuItems)
    ensures a.IsTestimonialAction() ==> r.state == s.(testimonials := r.state.testimonials)
    ensures a.IsBannerAction() ==> r.state == s.(promoBanners := r.state.promoBanners)
    ensures a.AddCustomer? ==> r.state == s.(customers := s.customers + [a.customer])
    ensures a.ToggleDarkMode? ==> r.state == s.(isDarkMode := !s.isDarkMode)
    ensures a.AdminLogout? ==> r.state == s.(isAdminAuthenticated := false)
    ensures a.AdminLogin? ==> (r.returned <==> a.password == AdminPassword) && (!r.returned ==> r.state == s)
    ensures r.returned ==> a.AdminLogin?
    ensures a.ClearCart? ==> r.state.cart == []
    ensures a.RemoveFromCartAction? ==> r.state.cart == RemoveFromCart(s.cart, a.id)
    ensures a.SetMenuItems? ==> r.state.menuItems == a.items
    ensures a.AddMenuItem? ==> r.state.menuItems == s.menuItems + [a.menuItem]
    ensures a.AddTestimonial? ==> r.state.testimonials == s.testimonials + [a.testimonial]
    ensures a.AddPromoBanner? ==> r.state.promoBanners == s.promoBanners + [a.banner]
    // every other action is delegated to its collection operation
    ensures a.AddToCartAction? ==> r.state.cart == AddToCart(s.cart, a.item, a.quantity, a.observations)
    ensures a.UpdateCartItemAction? ==> r.state.cart == UpdateCartItem(s.cart, a.id, a.quantity, a.observations)
    ensures a.UpdateMenuItemAction? ==> r.state.menuItems == UpdateMenuItem(s.menuItems, a.id, a.menuPatch)
    ensures a.DeleteMenuItem? ==> r.state.menuItems == DeleteById(s.menuItems, MenuId, a.id)
    ensures a.UpdateTestimonialAction? ==> r.state.testimonials == UpdateTestimonial(s.testimonials, a.id, a.testimonialPatch)
    ensures a.DeleteTestimonial? ==> r.state.testimonials == DeleteById(s.testimonials, TestimonialId, a.id)
    ensures a.UpdatePromoBannerAction? ==> r.state.promoBanners == UpdatePromoBanner(s.promoBanners, a.id, a.bannerPatch)
    ensures a.DeletePromoBanner? ==> r.state.promoBanners == DeleteById(s.promoBanners, BannerId, a.id)
    ensures r.returned ==> r.state == s.(isAdminAuthenticated := true)
  {
    if a.IsCartAction() then Dispatched(s.(cart := CartOp(s.cart, a)), false)
    else if a.IsMenuAction() then Dispatched(s.(menuItems := MenuOp(s.menuItems, a)), false)
    else if a.IsTestimonialAction() then Dispatched(s.(testimonials := TestimonialOp(s.testimonials, a)), false)
    else if a.IsBannerAction() then Dispatched(s.(promoBanners := BannerOp(s.promoBanners, a)), false)
    else
      match a
      case ToggleDarkMode => Dispatched(s.(isDarkMode := !s.isDarkMode), false)
      case AdminLogin(pw) => AdminLoginOp(s, pw)
      case AdminLogout => Dispatched(s.(isAdminAuthenticated := false), false)
      case AddCustomer(c) => Dispatched(s.(customers := Append(s.customers, c)), false)
  }

  /** Toggling the theme twice restores the state. */
  lemma ToggleTwice(s: AppState)
    ensures Dispatch(Dispatch(s, ToggleDarkMode).state, ToggleDarkMode).state == s
  {
  }

  /** Setting a non-positive quantity is removing the line. */
  lemma UpdateToZeroIsRemove(s: AppState, id: string, q: int, o: Option<string>)
    requires q <= 0
    ensures Dispatch(s, UpdateCartItemAction(id, q, o)) == Dispatch(s, RemoveFromCartAction(id))
  {
  }

  /** Adding a dish with a fresh id and then deleting that id restores the menu. */
  lemma AddThenDeleteMenuItem(s: AppState, m: MenuItem)
    requires !HasId(s.menuItems, MenuId, m.id)
    ensures Dispatch(Dispatch(s, AddMenuItem(m)).state, DeleteMenuItem(m.id)).state == s
  {
    DeleteUndoesAppend(s.menuItems, MenuId, m);
  }
}
