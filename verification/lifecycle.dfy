/** The credential lifecycle across handlers: a checkout issues a password,
    the password buys one download token, and the token buys one download. */
module Lifecycle {
  import opened Common
  import opened Cart
  import opened Users
  import opened Catalog
  import opened Credentials
  import opened Checkout

  /** A buyer who checks out, redeems the password printed for a line within
      the token's lifetime and asks for a listed file gets it exactly once;
      until the password is redeemed the status query reports it pending.
      The title must not contain `%`: the download handler decodes the
      already decoded route parameter a second time, which leaves such a
      title unchanged only when it holds no escape. */
  lemma PurchaseToDownload(store: Store, users: seq<User>, email: string, cart: seq<CartItem>,
                           otps: seq<string>, i: nat, token: string, now: int, later: int,
                           config: FilesConfig, disk: Disk)
    requires PasswordsFor(cart, otps)
    requires Truthy(email) && Registered(users, email)
    requires i < |cart|
    requires forall k :: 0 <= k < |cart[i].title| ==> cart[i].title[k] != '%'
    requires IsHexOfBytes(token, 16)
    requires now <= later <= now + TokenLifetime
    requires cart[i].title in config && config[cart[i].title].file in disk
    ensures var c := Checkout.Checkout(store, users, email, cart, otps);
            && c.response.CheckedOut?
            && PasswordStatus(c.store, email, cart[i].title).response
            && var title := cart[i].title;
               var v := VerifyPassword(c.store, email, title, c.response.passwords[title], token, now);
               var d := Download(v.store, title, token, later, Some(config), disk);
               && v.response == Verified(title, token)
               && d.response == Served(config[title].file)
               && DownloadBound(v.store, title, token, later, Some(config), disk) == d
               && Download(d.store, title, token, later, Some(config), disk).response == LinkInvalid
  {
    var c := Checkout.Checkout(store, users, email, cart, otps);
    var title := cart[i].title;
    assert c.store[OtpKey(email, title)] == Otp(c.response.passwords[title]);
  }

  /** Checking out again does not disturb download tokens already issued:
      an earlier token stays usable until its own expiry. */
  lemma ReissueKeepsTokens(store: Store, users: seq<User>, email: string, cart: seq<CartItem>,
                           otps: seq<string>, token: string)
    requires PasswordsFor(cart, otps)
    requires TokenKey(token) in store && store[TokenKey(token)].Token?
    requires TokenKey(token) !in IssuedKeys(email, cart)
    ensures var c := Checkout.Checkout(store, users, email, cart, otps);
            TokenKey(token) in c.store && c.store[TokenKey(token)] == store[TokenKey(token)]
  {
  }

  /** A rejected password attempt leaves the pending password in place, so
      the right password still works afterwards. */
  lemma WrongPasswordHarmless(store: Store, email: string, title: string, wrong: string,
                              right: string, token: string, token2: string, now: int)
    requires IsHexOfBytes(token, 16) && IsHexOfBytes(token2, 16)
    requires OtpKey(email, title) in store && store[OtpKey(email, title)] == Otp(right)
    requires wrong != right
    ensures var v := VerifyPassword(store, email, title, wrong, token, now);
            && v.response == Rejected
            && VerifyPassword(v.store, email, title, right, token2, now).response.Verified?
  {
  }
}
