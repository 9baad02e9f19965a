/** The applied-jobs cart: a list of entries kept in page memory and
    written through to the browser's local storage under 'jobCart'. */
module Cart {
  import opened Text
  import opened Markup

  /** One applied job, `{id, title, company, details}`; `id` is whatever the
      clock gave when the job was added. */
  datatype Entry = Entry(id: int, title: string, company: string, details: string)

  /** What the 'jobCart' item holds: the empty string, or the JSON text of
      an array of entries (kept here as the entries it denotes). */
  datatype Stored = EmptyText | Json(entries: seq<Entry>)

  const CartKey: string := "jobCart"

  /** The two alerts `addToCart` ends with. */
  datatype AddNotice = AlreadyInCart | JobAdded

  /** The job title read from a card: its `h3` text, else 'Unknown Job'. */
  function CardTitle(card: JobCard): (t: string)
    ensures t != []
    ensures t == "Unknown Job" || card.heading == Some(t)
    ensures card.heading.Some? && card.heading.value != [] ==> t == card.heading.value
  {
    TextOr(card.heading, "Unknown Job")
  }

  /** The company read from a card: its `p strong` text, else 'Unknown Company'. */
  function CardCompany(card: JobCard): (c: string)
    ensures c != []
    ensures c == "Unknown Company" || card.strong == Some(c)
    ensures card.strong.Some? && card.strong.value != [] ==> c == card.strong.value
  {
    TextOr(card.strong, "Unknown Company")
  }

  /** The details read from a card: its second `p`, else ''. */
  function CardDetails(card: JobCard): (d: string)
    ensures |card.paragraphs| <= 1 ==> d == []
    ensures |card.paragraphs| > 1 ==> d == card.paragraphs[1]
  {
    if |card.paragraphs| > 1 then card.paragraphs[1] else []
  }

  function NewEntry(card: JobCard, id: int): Entry {
    Entry(id, CardTitle(card), CardCompany(card), CardDetails(card))
  }

  predicate HasPair(e: Entry, title: string, company: string) {
    e.title == title && e.company == company
  }

  /** `cart.some(...)`: some entry has exactly this title and company. */
  function IsAlreadyInCart(cart: seq<Entry>, title: string, company: string): (b: bool)
    ensures b <==> exists i :: 0 <= i < |cart| && HasPair(cart[i], title, company)
  {
    if cart == [] then false
    else HasPair(cart[0], title, company) || IsAlreadyInCart(cart[1..], title, company)
  }

  /** No two entries share a (title, company) pair. */
  predicate PairsDistinct(cart: seq<Entry>) {
    forall i, j :: 0 <= i < j < |cart| ==> !HasPair(cart[j], cart[i].title, cart[i].company)
  }

  /** The cart after `addToCart(card)`: unchanged when the card's pair is
      already present, else the card's entry appended. */
  function AddedToCart(cart: seq<Entry>, card: JobCard, id: int): (r: seq<Entry>)
    ensures IsAlreadyInCart(r, CardTitle(card), CardCompany(card))
    ensures r == cart || (!IsAlreadyInCart(cart, CardTitle(card), CardCompany(card))
                          && |r| == |cart| + 1 && r[..|cart|] == cart && r[|cart|] == NewEntry(card, id))
    ensures PairsDistinct(cart) ==> PairsDistinct(r)
  {
    if IsAlreadyInCart(cart, CardTitle(card), CardCompany(card)) then cart
    else
      var r := cart + [NewEntry(card, id)];
      assert HasPair(r[|cart|], CardTitle(card), CardCompany(card));
      r
  }

  /** The cart after `removeFromCart(index)`: entry `index` taken out when
      the index is in bounds, else unchanged. */
  function RemovedFromCart(cart: seq<Entry>, index: int): (r: seq<Entry>)
    ensures !(0 <= index < |cart|) ==> r == cart
    ensures 0 <= index < |cart| ==>
              && |r| == |cart| - 1
              && (forall k :: 0 <= k < index ==> r[k] == cart[k])
              && (forall k :: index <= k < |r| ==> r[k] == cart[k + 1])
              && multiset(r) + multiset{cart[index]} == multiset(cart)
    ensures |cart| > 0 && index == |cart| - 1 ==> r == cart[..index]
  {
    if 0 <= index < |cart| then
      assert cart == cart[..index] + [cart[index]] + cart[index + 1..];
      cart[..index] + cart[index + 1..]
    else cart
  }

  /** Removing keeps the pairs distinct. */
  lemma RemoveKeepsPairsDistinct(cart: seq<Entry>, index: int)
    requires PairsDistinct(cart)
    ensures PairsDistinct(RemovedFromCart(cart, index))
  {
    var r := RemovedFromCart(cart, index);
    if 0 <= index < |cart| {
      forall i, j | 0 <= i < j < |r|
        ensures !HasPair(r[j], r[i].title, r[i].company)
      {
        var i' := if i < index then i else i + 1;
        var j' := if j < index then j else j + 1;
        assert r[i] == cart[i'] && r[j] == cart[j'] && i' < j';
      }
    }
  }

  /** A second add of the same card changes nothing: duplicates are rejected. */
  lemma AddTwiceIsAddOnce(cart: seq<Entry>, card: JobCard, id1: int, id2: int)
    ensures AddedToCart(AddedToCart(cart, card, id1), card, id2) == AddedToCart(cart, card, id1)
  {
  }

  /** Removing at the old length undoes a successful add. */
  lemma RemoveUndoesAdd(cart: seq<Entry>, card: JobCard, id: int)
    requires !IsAlreadyInCart(cart, CardTitle(card), CardCompany(card))
    ensures RemovedFromCart(AddedToCart(cart, card, id), |cart|) == cart
  {
    assert AddedToCart(cart, card, id) == cart + [NewEntry(card, id)];
    RemoveLastOfAppend(cart, NewEntry(card, id));
  }

  lemma RemoveLastOfAppend(cart: seq<Entry>, e: Entry)
    ensures RemovedFromCart(cart + [e], |cart|) == cart
  {
    assert (cart + [e])[..|cart|] == cart;
  }

  /** The cart `loadCartFromStorage` leaves: the stored entries when the
      item holds a non-empty text, else the cart as it was. */
  function LoadedCart(cart: seq<Entry>, storage: map<string, Stored>): (r: seq<Entry>)
    ensures CartKey !in storage || storage[CartKey] == EmptyText ==> r == cart
    ensures CartKey in storage && storage[CartKey].Json? ==> r == storage[CartKey].entries
  {
    if CartKey in storage && storage[CartKey].Json? then storage[CartKey].entries else cart
  }

  /** Local storage after `saveCartToStorage`. */
  function SavedStorage(storage: map<string, Stored>, cart: seq<Entry>): (s: map<string, Stored>)
    ensures forall before :: LoadedCart(before, s) == cart
    ensures s.Keys == storage.Keys + {CartKey}
    ensures forall key :: key in storage && key != CartKey ==> s[key] == storage[key]
  {
    storage[CartKey := Json(cart)]
  }

  /** The header link's text, `Cart (n)`. */
  function CountLabel(n: nat): (text: string)
    ensures |text| >= 8 && text[..6] == "Cart (" && text[|text| - 1] == ')'
    ensures forall k :: 6 <= k < |text| - 1 ==> IsDigit(text[k])
    ensures DecimalValue(text[6..|text| - 1]) == n
    ensures text[6] == '0' ==> n == 0
    ensures n == 0 ==> text == "Cart (0)"
  {
    var digits := Decimal(n);
    var text := "Cart (" + digits + ")";
    assert text[6..|text| - 1] == digits;
    DecimalRoundTrip(n);
    text
  }

  /** The page's cart state: the `cart` array, the local storage items and
      the text of the header's cart link (None when the page has no link). */
  class CartPage {
    var cart: seq<Entry>
    var storage: map<string, Stored>
    var cartLink: Option<string>

    /** The script starts with an empty cart over whatever storage holds. */
    constructor (storage0: map<string, Stored>, cartLink0: Option<string>)
      ensures cart == [] && storage == storage0 && cartLink == cartLink0
    {
      cart, storage, cartLink := [], storage0, cartLink0;
    }

    /** Storage holds exactly the in-memory cart. */
    ghost predicate Persisted()
      reads this
    {
      CartKey in storage && storage[CartKey] == Json(cart)
    }

    /** The header link, if any, shows the current count. */
    ghost predicate HeaderCurrent()
      reads this
    {
      cartLink.Some? ==> cartLink.value == CountLabel(|cart|)
    }

    ghost predicate Consistent()
      reads this
    {
      Persisted() && HeaderCurrent() && PairsDistinct(cart)
    }

    method LoadCartFromStorage()
      modifies this`cart
      ensures cart == LoadedCart(old(cart), storage)
    {
      if CartKey in storage && storage[CartKey].Json? {
        cart := storage[CartKey].entries;
      }
    }

    method SaveCartToStorage()
      modifies this`storage
      ensures storage == SavedStorage(old(storage), cart)
      ensures Persisted()
    {
      storage := storage[CartKey := Json(cart)];
    }

    method UpdateCartCount()
      modifies this`cartLink
      ensures cartLink == if old(cartLink).Some? then Some(CountLabel(|cart|)) else None
      ensures HeaderCurrent()
    {
      if cartLink.Some? {
        cartLink := Some(CountLabel(|cart|));
      }
    }

    method AddToCart(card: JobCard, id: int) returns (notice: AddNotice)
      modifies this
      ensures cart == AddedToCart(old(cart), card, id)
      ensures notice == AlreadyInCart <==> IsAlreadyInCart(old(cart), CardTitle(card), CardCompany(card))
      ensures notice == AlreadyInCart ==> storage == old(storage) && cartLink == old(cartLink)
      ensures notice == JobAdded ==> storage == SavedStorage(old(storage), cart) && Persisted()
      ensures notice == JobAdded ==> HeaderCurrent() && cartLink.Some? == old(cartLink).Some?
      ensures old(Consistent()) ==> Consistent()
    {
      var title := CardTitle(card);
      var company := CardCompany(card);
      var detailText := CardDetails(card);
      if IsAlreadyInCart(cart, title, company) {
        return AlreadyInCart;
      }
      ghost var before := cart;
      cart := cart + [Entry(id, title, company, detailText)];
      assert cart == AddedToCart(before, card, id);
      assert PairsDistinct(before) ==> PairsDistinct(cart);
      SaveCartToStorage();
      UpdateCartCount();
      notice := JobAdded;
    }

    method RemoveFromCart(index: int)
      modifies this
      ensures cart == RemovedFromCart(old(cart), index)
      ensures !(0 <= index < |old(cart)|) ==> storage == old(storage) && cartLink == old(cartLink)
      ensures 0 <= index < |old(cart)| ==> storage == SavedStorage(old(storage), cart) && Persisted()
      ensures 0 <= index < |old(cart)| ==> HeaderCurrent() && cartLink.Some? == old(cartLink).Some?
      ensures old(Consistent()) ==> Consistent()
    {
      if 0 <= index < |cart| {
        ghost var before := cart;
        cart := cart[..index] + cart[index + 1..];
        if PairsDistinct(before) { RemoveKeepsPairsDistinct(before, index); }
        SaveCartToStorage();
        UpdateCartCount();
      }
    }
  }

  /** Page start-up: an empty cart, then `loadCartFromStorage` and
      `updateCartCount`. A saved cart comes back in full and in order. */
  method StartPage(storage: map<string, Stored>, cartLink: Option<string>) returns (page: CartPage)
    ensures fresh(page)
    ensures page.cart == LoadedCart([], storage) && page.storage == storage
    ensures page.HeaderCurrent() && page.cartLink.Some? == cartLink.Some?
    ensures CartKey in storage && storage[CartKey].Json? && PairsDistinct(storage[CartKey].entries)
            ==> page.Consistent()
  {
    page := new CartPage(storage, cartLink);
    page.LoadCartFromStorage();
    page.UpdateCartCount();
  }
}
