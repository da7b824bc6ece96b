/** The credential-issuing part of `/checkout`: validate the request, look the
    buyer up, store one fresh password per cart line, and compute the totals.
    The invoice itself is not modelled; the passwords it embeds are returned. */
module Checkout {
  import opened Common
  import opened Cart
  import opened Users
  import opened Credentials

  datatype CheckoutError = InvalidRequest | UnknownUser

  datatype CheckoutResponse =
    | CheckoutDenied(error: CheckoutError)
    | CheckedOut(passwords: map<string, string>, totals: Totals)

  /** The passwords drawn for a cart: one per line, each the hex encoding of
      three random bytes. */
  predicate PasswordsFor(cart: seq<CartItem>, otps: seq<string>) {
    |otps| == |cart| && forall i :: 0 <= i < |otps| ==> IsHexOfBytes(otps[i], 3)
  }

  function Titles(cart: seq<CartItem>): set<string> {
    set i | 0 <= i < |cart| :: cart[i].title
  }

  /** The keys a checkout by `email` writes. */
  function IssuedKeys(email: string, cart: seq<CartItem>): set<string> {
    set i | 0 <= i < |cart| :: OtpKey(email, cart[i].title)
  }

  /** The last line of the cart with the given title, or -1. */
  function LastLineOf(cart: seq<CartItem>, title: string): (j: int)
    ensures -1 <= j < |cart|
    ensures j >= 0 ==> cart[j].title == title
    ensures forall k :: j < k < |cart| ==> cart[k].title != title
    decreases |cart|
  {
    if cart == [] then -1
    else if cart[|cart| - 1].title == title then |cart| - 1
    else LastLineOf(cart[..|cart| - 1], title)
  }

  lemma TitlesSnoc(cart: seq<CartItem>)
    requires cart != []
    ensures Titles(cart) == Titles(cart[..|cart| - 1]) + {cart[|cart| - 1].title}
  {
  }

  lemma IssuedKeysSnoc(email: string, cart: seq<CartItem>)
    requires cart != []
    ensures IssuedKeys(email, cart)
            == IssuedKeys(email, cart[..|cart| - 1]) + {OtpKey(email, cart[|cart| - 1].title)}
  {
  }

  /** A title other than that of the cart's last line has its last line in
      the rest of the cart. */
  lemma LastLineOfPrefix(cart: seq<CartItem>, prefix: seq<CartItem>, t: string)
    requires cart != [] && prefix == cart[..|cart| - 1]
    requires t != cart[|cart| - 1].title
    ensures LastLineOf(cart, t) == LastLineOf(prefix, t)
  {
  }

  /** Store the passwords line by line, as the `forEach` over the cart does;
      a later line with the same title overwrites an earlier one. */
  function IssuePasswords(store: Store, email: string, cart: seq<CartItem>, otps: seq<string>)
    : (r: Store)
    requires |otps| == |cart|
    ensures r.Keys == store.Keys + IssuedKeys(email, cart)
    ensures forall k :: k in store && k !in IssuedKeys(email, cart) ==> r[k] == store[k]
    ensures forall i :: 0 <= i < |cart| ==>
              r[OtpKey(email, cart[i].title)] == Otp(otps[LastLineOf(cart, cart[i].title)])
    decreases |cart|
  {
    if cart == [] then store
    else
      var n := |cart| - 1;
      var before := IssuePasswords(store, email, cart[..n], otps[..n]);
      IssuedKeysSnoc(email, cart);
      IssueLast(before, email, cart, cart[..n], otps);
      before[OtpKey(email, cart[n].title) := Otp(otps[n])]
  }

  lemma IssueLast(before: Store, email: string, cart: seq<CartItem>, prefix: seq<CartItem>, otps: seq<string>)
    requires |otps| == |cart| && cart != [] && prefix == cart[..|cart| - 1]
    requires forall i :: 0 <= i < |prefix| ==>
               OtpKey(email, prefix[i].title) in before
               && before[OtpKey(email, prefix[i].title)] == Otp(otps[LastLineOf(prefix, prefix[i].title)])
    ensures var n := |cart| - 1;
            var r := before[OtpKey(email, cart[n].title) := Otp(otps[n])];
            forall i :: 0 <= i < |cart| ==>
              r[OtpKey(email, cart[i].title)] == Otp(otps[LastLineOf(cart, cart[i].title)])
  {
    var n := |cart| - 1;
    var r := before[OtpKey(email, cart[n].title) := Otp(otps[n])];
    forall i | 0 <= i < |cart|
      ensures r[OtpKey(email, cart[i].title)] == Otp(otps[LastLineOf(cart, cart[i].title)])
    {
      OtpKeyInjective(email, cart[i].title, cart[n].title);
      if cart[i].title != cart[n].title {
        assert prefix[i] == cart[i];
        LastLineOfPrefix(cart, prefix, cart[i].title);
      }
    }
  }

  /** The title-to-password table returned to the buyer; a later line with
      the same title overwrites an earlier one. */
  function GeneratedPasswords(cart: seq<CartItem>, otps: seq<string>): (m: map<string, string>)
    requires |otps| == |cart|
    ensures m.Keys == Titles(cart)
    ensures forall i :: 0 <= i < |cart| ==> m[cart[i].title] == otps[LastLineOf(cart, cart[i].title)]
    decreases |cart|
  {
    if cart == [] then map[]
    else
      var n := |cart| - 1;
      var before := GeneratedPasswords(cart[..n], otps[..n]);
      TitlesSnoc(cart);
      GenerateLast(before, cart, cart[..n], otps);
      before[cart[n].title := otps[n]]
  }

  lemma GenerateLast(before: map<string, string>, cart: seq<CartItem>, prefix: seq<CartItem>, otps: seq<string>)
    requires |otps| == |cart| && cart != [] && prefix == cart[..|cart| - 1]
    requires forall i :: 0 <= i < |prefix| ==>
               prefix[i].title in before
               && before[prefix[i].title] == otps[LastLineOf(prefix, prefix[i].title)]
    ensures var n := |cart| - 1;
            var m := before[cart[n].title := otps[n]];
            forall i :: 0 <= i < |cart| ==> m[cart[i].title] == otps[LastLineOf(cart, cart[i].title)]
  {
  }

  /** One more line of the cart: one more write to the map and the table. */
  lemma IssueStep(store: Store, email: string, cart: seq<CartItem>, otps: seq<string>, i: nat)
    requires |otps| == |cart| && i < |cart|
    ensures IssuePasswords(store, email, cart[..i + 1], otps[..i + 1])
            == IssuePasswords(store, email, cart[..i], otps[..i])[OtpKey(email, cart[i].title) := Otp(otps[i])]
    ensures GeneratedPasswords(cart[..i + 1], otps[..i + 1])
            == GeneratedPasswords(cart[..i], otps[..i])[cart[i].title := otps[i]]
  {
    assert cart[..i + 1][..i] == cart[..i] && otps[..i + 1][..i] == otps[..i];
  }

  /** The handler's `forEach` loop: it writes each line's password into the
      map and into the table handed back, and ends with exactly the map and
      table described above. */
  method IssueLoop(store: Store, email: string, cart: seq<CartItem>, otps: seq<string>)
    returns (s: Store, passwords: map<string, string>)
    requires |otps| == |cart|
    ensures s == IssuePasswords(store, email, cart, otps)
    ensures passwords == GeneratedPasswords(cart, otps)
  {
    s, passwords := store, map[];
    var i := 0;
    assert cart[..0] == [] && otps[..0] == [];
    while i < |cart|
      invariant 0 <= i <= |cart|
      invariant s == IssuePasswords(store, email, cart[..i], otps[..i])
      invariant passwords == GeneratedPasswords(cart[..i], otps[..i])
    {
      IssueStep(store, email, cart, otps, i);
      s := s[OtpKey(email, cart[i].title) := Otp(otps[i])];
      passwords := passwords[cart[i].title := otps[i]];
      i := i + 1;
    }
    assert cart[..|cart|] == cart && otps[..|otps|] == otps;
  }

  /** `/checkout`: a missing email or an empty cart is refused, so is an
      unknown buyer, and neither touches the credential map.  Otherwise every
      cart title gets a password stored under the buyer's key for it, the same
      password is handed back for the invoice, and no other key changes.
      `otps` stands for the random passwords drawn, one per cart line. */
  function Checkout(store: Store, users: seq<User>, email: string, cart: seq<CartItem>,
                    otps: seq<string>): (r: Step<CheckoutResponse>)
    requires PasswordsFor(cart, otps)
    ensures r.response == CheckoutDenied(InvalidRequest) <==> !Truthy(email) || cart == []
    ensures r.response == CheckoutDenied(UnknownUser) <==>
              Truthy(email) && cart != [] && !Registered(users, email)
    ensures r.response.CheckoutDenied? ==> r.store == store
    ensures r.response.CheckedOut? ==>
              && r.response.passwords.Keys == Titles(cart)
              && r.store.Keys == store.Keys + IssuedKeys(email, cart)
              && (forall i :: 0 <= i < |cart| ==>
                    r.store[OtpKey(email, cart[i].title)] == Otp(r.response.passwords[cart[i].title]))
              && (forall k :: k in store && k !in IssuedKeys(email, cart) ==> r.store[k] == store[k])
              && (forall t :: t in r.response.passwords ==> IsHexOfBytes(r.response.passwords[t], 3))
              && r.response.totals == TotalsOf(cart)
  {
    if !Truthy(email) || cart == [] then Step(store, CheckoutDenied(InvalidRequest))
    else if FindByEmail(users, email).None? then Step(store, CheckoutDenied(UnknownUser))
    else
      var passwords := GeneratedPasswords(cart, otps);
      assert forall t :: t in passwords ==> IsHexOfBytes(passwords[t], 3) by {
        forall t | t in passwords ensures IsHexOfBytes(passwords[t], 3) {
          var i :| 0 <= i < |cart| && t == cart[i].title;
        }
      }
      Step(IssuePasswords(store, email, cart, otps), CheckedOut(passwords, TotalsOf(cart)))
  }

  /** The last line of a cart decides the password of its title: buying the
      same title twice in one cart leaves only the later password valid. */
  lemma LastDuplicateWins(store: Store, users: seq<User>, email: string, cart: seq<CartItem>,
                          otps: seq<string>, i: nat, j: nat)
    requires PasswordsFor(cart, otps)
    requires Truthy(email) && Registered(users, email)
    requires i < j < |cart| && cart[i].title == cart[j].title
    requires forall k :: j < k < |cart| ==> cart[k].title != cart[j].title
    ensures Checkout(store, users, email, cart, otps).store[OtpKey(email, cart[i].title)] == Otp(otps[j])
  {
    assert LastLineOf(cart, cart[i].title) == j;
  }

  /** A second checkout of the same title by the same buyer overwrites the
      pending password: only the newest one is stored. */
  lemma ReissueOverwrites(store: Store, users: seq<User>, email: string, item: CartItem,
                          otp1: string, otp2: string)
    requires IsHexOfBytes(otp1, 3) && IsHexOfBytes(otp2, 3)
    requires Truthy(email) && Registered(users, email)
    ensures var s1 := Checkout(store, users, email, [item], [otp1]).store;
            var s2 := Checkout(s1, users, email, [item], [otp2]).store;
            && s2[OtpKey(email, item.title)] == Otp(otp2)
            && s2.Keys == s1.Keys
  {
  }
}
