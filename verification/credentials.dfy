/** The process-wide credential map and the handlers that move entries
    through it: `/verify-password` swaps a one-time password for a download
    token, `/download/:title` spends the token, and `/check-password-status`
    looks a password up.  Both kinds of entry share one string-keyed map. */
module Credentials {
  import opened Common
  import opened Catalog

  /** A one-time password is stored bare; a download token remembers who it
      was issued to, for which title, and until when (milliseconds). */
  datatype Entry =
    | Otp(password: string)
    | Token(email: string, title: string, expiry: int)

  type Store = map<string, Entry>

  /** How long a download token stays valid: five minutes, in milliseconds. */
  const TokenLifetime: int := 300000

  /** The key of the one-time password of `email` for `title`. */
  function OtpKey(email: string, title: string): string {
    email + "-" + title
  }

  /** The key of download token `token`. */
  function TokenKey(token: string): string {
    "download-" + token
  }

  /** The new state of the map together with what the handler answers. */
  datatype Step<R> = Step(store: Store, response: R)

  lemma OtpKeyInjective(email: string, t1: string, t2: string)
    ensures OtpKey(email, t1) == OtpKey(email, t2) <==> t1 == t2
  {
    if OtpKey(email, t1) == OtpKey(email, t2) {
      var n := |email + "-"|;
      assert OtpKey(email, t1)[n..] == t1;
      assert OtpKey(email, t2)[n..] == t2;
    }
  }

  lemma TokenKeyInjective(t1: string, t2: string)
    ensures TokenKey(t1) == TokenKey(t2) <==> t1 == t2
  {
    if TokenKey(t1) == TokenKey(t2) {
      assert TokenKey(t1)[9..] == t1;
      assert TokenKey(t2)[9..] == t2;
    }
  }

  /** The two kinds of key are not namespaced apart: the password key of the
      account `download` for title `t` is the key of token `t`. */
  lemma SharedKeySpace(t: string)
    ensures OtpKey("download", t) == TokenKey(t)
  {
  }

  // -------------------------------------------------------- verify-password

  datatype VerifyResponse =
    | Verified(title: string, token: string)  // the link `/download/<title>?token=<token>`
    | Rejected

  /** `/verify-password`: when the map holds exactly `password` under the
      account's key for the title, that entry is removed and a fresh token is
      stored with a five-minute expiry; otherwise nothing changes.
      `token` stands for the 16 random bytes drawn, in hex, and `now` for the
      clock. */
  function VerifyPassword(store: Store, email: string, title: string, password: string,
                          token: string, now: int): (r: Step<VerifyResponse>)
    requires IsHexOfBytes(token, 16)
    ensures r.response.Verified? <==>
              OtpKey(email, title) in store && store[OtpKey(email, title)] == Otp(password)
    ensures r.response.Rejected? ==> r.store == store
    ensures r.response.Verified? ==>
              && r.response == Verified(title, token)
              && r.store.Keys == store.Keys - {OtpKey(email, title)} + {TokenKey(token)}
              && r.store[TokenKey(token)] == Token(email, title, now + TokenLifetime)
              && forall k :: k in store && k != OtpKey(email, title) && k != TokenKey(token)
                   ==> r.store[k] == store[k]
  {
    var key := OtpKey(email, title);
    if key in store && store[key] == Otp(password) then
      var tokenKey := TokenKey(token);
      Step((store - {key})[tokenKey := Token(email, title, now + TokenLifetime)],
           Verified(title, token))
    else
      Step(store, Rejected)
  }

  /** A password works once: after it has been exchanged for a token, the
      same request is rejected, whatever token and time it comes with. */
  lemma VerifyPasswordOnce(store: Store, email: string, title: string, password: string,
                           token: string, now: int, token2: string, now2: int)
    requires IsHexOfBytes(token, 16) && IsHexOfBytes(token2, 16)
    requires VerifyPassword(store, email, title, password, token, now).response.Verified?
    ensures var s := VerifyPassword(store, email, title, password, token, now).store;
            VerifyPassword(s, email, title, password, token2, now2) == Step(s, Rejected)
  {
  }

  // --------------------------------------------------------------- download

  datatype DownloadResponse =
    | LinkInvalid           // 403, no entry under the token's key
    | LinkExpired           // 403, the token was past its expiry
    | FileNotFound          // 404
    | Served(path: string)  // the file at this path is sent

  /** Whether the entry under a token key has expired at `now`.  A bare
      password stored under that key has no expiry field, and comparing a
      number with a missing field is false in JavaScript, so it never expires. */
  predicate Expired(e: Entry, now: int) {
    e.Token? && now > e.expiry
  }

  /** `/download/:title`: an unknown token is refused; an expired one is
      removed and refused; a live one is spent if and only if the files
      configuration (`None` when it cannot be read) lists the requested title,
      and the file is served if it exists on disk.  The requested title is
      never compared with the title the token was issued for. */
  function Download(store: Store, title: string, token: string, now: int,
                    config: Option<FilesConfig>, disk: Disk): (r: Step<DownloadResponse>)
    ensures TokenKey(token) !in store ==> r == Step(store, LinkInvalid)
    ensures TokenKey(token) in store && Expired(store[TokenKey(token)], now) ==>
              r == Step(store - {TokenKey(token)}, LinkExpired)
    ensures TokenKey(token) in store && !Expired(store[TokenKey(token)], now) ==>
              if config.Some? && title in config.value then
                && r.store == store - {TokenKey(token)}
                && (config.value[title].file in disk ==> r.response == Served(config.value[title].file))
                && (config.value[title].file !in disk ==> r.response == FileNotFound)
              else r == Step(store, FileNotFound)
    ensures r.response.Served? <==>
              && TokenKey(token) in store && !Expired(store[TokenKey(token)], now)
              && config.Some? && title in config.value && config.value[title].file in disk
    ensures r.store.Keys <= store.Keys
    ensures forall k :: k in r.store ==> r.store[k] == store[k]
  {
    var key := TokenKey(token);
    if key !in store then Step(store, LinkInvalid)
    else if Expired(store[key], now) then Step(store - {key}, LinkExpired)
    else match config
      case None => Step(store, FileNotFound)
      case Some(files) =>
        if title !in files then Step(store, FileNotFound)
        else
          var path := files[title].file;
          Step(store - {key}, if path in disk then Served(path) else FileNotFound)
  }

  /** A token is spent by its first successful download: the second request
      with it is refused, whatever title and time it asks for. */
  lemma DownloadOnce(store: Store, title: string, token: string, now: int,
                     config: Option<FilesConfig>, disk: Disk,
                     title2: string, now2: int, config2: Option<FilesConfig>, disk2: Disk)
    requires Download(store, title, token, now, config, disk).response.Served?
    ensures var s := Download(store, title, token, now, config, disk).store;
            Download(s, title2, token, now2, config2, disk2) == Step(s, LinkInvalid)
  {
  }

  /** The expiry comparison is strict: a token is still honoured in the very
      millisecond it expires, and refused one millisecond later. */
  lemma ExpiryBoundary(store: Store, title: string, token: string, email: string, issued: string,
                       expiry: int, config: FilesConfig, disk: Disk)
    requires TokenKey(token) in store && store[TokenKey(token)] == Token(email, issued, expiry)
    requires title in config && config[title].file in disk
    ensures Download(store, title, token, expiry, Some(config), disk).response.Served?
    ensures Download(store, title, token, expiry + 1, Some(config), disk)
            == Step(store - {TokenKey(token)}, LinkExpired)
  {
  }

  /** A token issued for one title opens any other title the files
      configuration lists. */
  lemma TokenOpensOtherTitle(store: Store, token: string, email: string, issued: string, expiry: int,
                             requested: string, now: int, config: FilesConfig, disk: Disk)
    requires TokenKey(token) in store && store[TokenKey(token)] == Token(email, issued, expiry)
    requires issued != requested && now <= expiry
    requires requested in config && config[requested].file in disk
    ensures Download(store, requested, token, now, Some(config), disk).response
            == Served(config[requested].file)
  {
  }

  /** A one-time password of the account `download` is accepted as a download
      token, at any time, without being exchanged first. */
  lemma OtpPassesAsToken(store: Store, t: string, password: string, now: int,
                         requested: string, config: FilesConfig, disk: Disk)
    requires OtpKey("download", t) in store && store[OtpKey("download", t)] == Otp(password)
    requires requested in config && config[requested].file in disk
    ensures Download(store, requested, t, now, Some(config), disk).response.Served?
  {
    SharedKeySpace(t);
  }

  /** Corrected download: a live token is honoured only for the title it was
      issued for; any other entry under the key, and any other title, is
      refused with the map left as it was. */
  function DownloadBound(store: Store, title: string, token: string, now: int,
                         config: Option<FilesConfig>, disk: Disk): (r: Step<DownloadResponse>)
    ensures r.response.Served? ==>
              && TokenKey(token) in store
              && store[TokenKey(token)].Token?
              && store[TokenKey(token)].title == title
              && now <= store[TokenKey(token)].expiry
    ensures (TokenKey(token) !in store || !store[TokenKey(token)].Token?
             || store[TokenKey(token)].title != title) ==> r == Step(store, LinkInvalid)
    ensures TokenKey(token) in store && store[TokenKey(token)].Token? && store[TokenKey(token)].title == title
            ==> r == Download(store, title, token, now, config, disk)
  {
    var key := TokenKey(token);
    if key in store && store[key].Token? && store[key].title == title
    then Download(store, title, token, now, config, disk)
    else Step(store, LinkInvalid)
  }

  // ------------------------------------------------- check-password-status

  /** `/check-password-status`: whether anything is stored under the
      account's key for the title.  The map is only read, and a download
      token whose key happens to equal that key also answers true. */
  function PasswordStatus(store: Store, email: string, title: string): (r: Step<bool>)
    ensures r.store == store
    ensures r.response <==>
              (exists p :: OtpKey(email, title) in store && store[OtpKey(email, title)] == Otp(p))
              || (OtpKey(email, title) in store && store[OtpKey(email, title)].Token?)
  {
    var key := OtpKey(email, title);
    Step(store, key in store)
  }

  /** The status query reports a pending password exactly until it is
      exchanged: true before a successful verification, false after it
      (unless the new token happens to land on the same key), and unchanged by
      a rejected attempt. */
  lemma StatusAcrossVerify(store: Store, email: string, title: string, password: string,
                           token: string, now: int)
    requires IsHexOfBytes(token, 16)
    ensures var r := VerifyPassword(store, email, title, password, token, now);
            && (r.response.Verified? ==> PasswordStatus(store, email, title).response)
            && (r.response.Verified? && OtpKey(email, title) != TokenKey(token) ==>
                  !PasswordStatus(r.store, email, title).response)
            && (r.response.Rejected? ==>
                  PasswordStatus(r.store, email, title).response == PasswordStatus(store, email, title).response)
  {
  }
}
