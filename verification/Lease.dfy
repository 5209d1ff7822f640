/** Session leases of internal/ha/lease.go on the memory store: signed tokens, renewal, expiry. Times are
    nanoseconds; claims carry whole seconds. */
module Leases {
  import opened Options

  const SECOND := 1_000_000_000

  /** time.Time.Unix, rounding down. */
  function Unix(t: int): int { t / SECOND }

  datatype Lease = Lease(
    id: string, streamKey: string, tenantId: string, deviceId: string, viewerId: string,
    preferredProtocol: string, lastKnownEndpoint: string,
    hlsUrl: string, webrtcUrl: string, webrtcOfferUrl: string,
    issuedAt: int, expiresAt: int, backend: string)

  datatype LeaseInput = LeaseInput(
    streamKey: string, tenantId: string, deviceId: string, viewerId: string,
    preferredProtocol: string, lastKnownEndpoint: string,
    hlsUrl: string, webrtcUrl: string, webrtcOfferUrl: string)

  datatype Claims = Claims(leaseId: string, streamKey: string, viewerId: string, issuedAt: int, expiresAt: int)

  datatype Error = InvalidToken | LeaseExpired | LeaseMissing

  datatype Result<T> = Ok(value: T) | Err(error: Error)

  /** JSON and base64url of the claims, and the base64url of the keyed digest. */
  datatype Codec = Codec(encode: Claims -> string, decode: string -> Option<Claims>, mac: string -> string)

  predicate NoDot(s: string) { '.' !in s }

  /** What is needed of them: decoding undoes encoding, and the alphabet has no dot. */
  ghost predicate Sound(k: Codec) {
    && (forall c: Claims :: NoDot(k.encode(c)) && k.decode(k.encode(c)) == Some(c))
    && (forall p: string :: NoDot(k.mac(p)))
  }

  // ---- tokens ----------------------------------------------------------------------------

  /** strings.Split(s, "."). */
  function SplitDot(s: string): (parts: seq<string>)
    ensures |parts| >= 1
  {
    if s == "" then [""]
    else
      var rest := SplitDot(s[1..]);
      if s[0] == '.' then [""] + rest else [[s[0]] + rest[0]] + rest[1..]
  }

  lemma {:induction false} SplitAfter(a: string, b: string)
    requires NoDot(a)
    ensures SplitDot(a) == [a] && SplitDot(a + "." + b) == [a] + SplitDot(b)
  {
    if a == "" {
      assert "" + "." + b == "." + b && ("." + b)[1..] == b;
    } else {
      SplitAfter(a[1..], b);
      assert (a + "." + b)[1..] == a[1..] + "." + b;
      assert a == [a[0]] + a[1..];
    }
  }

  /** Splitting into one part or two tells how the string was put together. */
  lemma {:induction false} SplitParts(s: string)
    ensures forall p <- SplitDot(s) :: NoDot(p)
    ensures var ps := SplitDot(s); (|ps| == 1 ==> s == ps[0]) && (|ps| == 2 ==> s == ps[0] + "." + ps[1])
  {
    if s != "" {
      SplitParts(s[1..]);
      assert s == [s[0]] + s[1..];
      var ps, rest := SplitDot(s), SplitDot(s[1..]);
      if s[0] == '.' {
        assert ps == [""] + rest;
      } else {
        var head := [s[0]] + rest[0];
        assert NoDot(head) by { assert NoDot(rest[0]); }
        assert ps == [head] + rest[1..];
        assert forall p <- rest[1..] :: p in rest;
      }
    }
  }

  function Sign(k: Codec, c: Claims): string { k.encode(c) + "." + k.mac(k.encode(c)) }

  function Parse(k: Codec, raw: string): Result<Claims> {
    var parts := SplitDot(raw);
    if |parts| != 2 || k.mac(parts[0]) != parts[1] then Err(InvalidToken)
    else match k.decode(parts[0])
      case None => Err(InvalidToken)
      case Some(c) => if c.leaseId == "" || c.streamKey == "" then Err(InvalidToken) else Ok(c)
  }

  /** Parsing undoes signing exactly for claims with a lease id and a stream key. */
  lemma ParseUndoesSign(k: Codec, c: Claims)
    requires Sound(k)
    ensures Parse(k, Sign(k, c)) == if c.leaseId != "" && c.streamKey != "" then Ok(c) else Err(InvalidToken)
  {
    var p := k.encode(c);
    SplitAfter(p, k.mac(p));
    SplitAfter(k.mac(p), "");
  }

  /** Only a payload followed by its own digest is ever accepted. */
  lemma AcceptedIsSigned(k: Codec, raw: string) returns (p: string)
    requires Parse(k, raw).Ok?
    ensures raw == p + "." + k.mac(p) && k.decode(p) == Some(Parse(k, raw).value)
  {
    SplitParts(raw);
    p := SplitDot(raw)[0];
  }

  // ---- trimming --------------------------------------------------------------------------

  /** unicode.IsSpace. */
  predicate IsSpace(c: char) {
    '\t' <= c <= '\r' || c == ' ' || c == '\U{0085}' || c == '\U{00A0}' || c == '\U{1680}'
    || '\U{2000}' <= c <= '\U{200A}' || c == '\U{2028}' || c == '\U{2029}' || c == '\U{202F}'
    || c == '\U{205F}' || c == '\U{3000}'
  }

  function TrimSpace(s: string): string {
    if s != "" && IsSpace(s[0]) then TrimSpace(s[1..])
    else if s != "" && IsSpace(s[|s| - 1]) then TrimSpace(s[..|s| - 1])
    else s
  }

  /** Trimming takes off spaces at both ends, all of them and nothing else. */
  lemma {:induction false} TrimTakesSpaces(s: string) returns (left: string, right: string)
    ensures s == left + TrimSpace(s) + right && forall c <- left + right :: IsSpace(c)
    ensures TrimSpace(s) != "" ==> !IsSpace(TrimSpace(s)[0]) && !IsSpace(TrimSpace(s)[|TrimSpace(s)| - 1])
  {
    left, right := "", "";
    if s != "" && IsSpace(s[0]) {
      left, right := TrimTakesSpaces(s[1..]);
      left := [s[0]] + left;
    } else if s != "" && IsSpace(s[|s| - 1]) {
      left, right := TrimTakesSpaces(s[..|s| - 1]);
      right := right + [s[|s| - 1]];
    }
  }

  lemma TrimmedToNothing(s: string)
    ensures TrimSpace(s) == "" <==> forall c <- s :: IsSpace(c)
  {
    var left, right := TrimTakesSpaces(s);
    var t := TrimSpace(s);
    if t != "" { assert t[0] == s[|left|]; } else { assert s == left + right; }
  }

  // ---- the store and the service ---------------------------------------------------------

  type Items = map<string, Lease>

  datatype Config = Config(ttl: int, skew: int, codec: Codec)

  /** NewLeaseService's defaults. */
  predicate Configured(c: Config) { c.ttl > 0 && c.skew >= 0 }

  /** The clock readings of one call: the service's own, then the store's in Get and in Save. */
  datatype Readings = Readings(now: int, get: int, save: int)

  function Collected(items: Items, now: int): Items { map id | id in items && now <= items[id].expiresAt :: items[id] }

  function Saved(items: Items, lease: Lease, now: int): Items { Collected(items[lease.id := lease], now) }

  function NewLease(c: Config, input: LeaseInput, id: string, now: int): Lease {
    var protocol := TrimSpace(input.preferredProtocol);
    Lease(id, TrimSpace(input.streamKey), TrimSpace(input.tenantId), TrimSpace(input.deviceId), TrimSpace(input.viewerId),
          if protocol == "" then "hls" else protocol, TrimSpace(input.lastKnownEndpoint),
          TrimSpace(input.hlsUrl), TrimSpace(input.webrtcUrl), TrimSpace(input.webrtcOfferUrl),
          now, now + c.ttl, "memory")
  }

  function ClaimsOf(lease: Lease): Claims {
    Claims(lease.id, lease.streamKey, lease.viewerId, Unix(lease.issuedAt), Unix(lease.expiresAt))
  }

  function TokenOf(c: Config, lease: Lease): string { Sign(c.codec, ClaimsOf(lease)) }

  /** What Reattach checks of the claims alone. */
  predicate InTime(c: Config, claims: Claims, now: int) {
    claims.issuedAt * SECOND - c.skew <= now <= claims.expiresAt * SECOND + c.skew
  }

  /** Reattach up to its Get: the claims of a genuine token whose time it is. */
  function Admit(c: Config, token: string, now: int): Result<Claims> {
    match Parse(c.codec, token)
    case Err(e) => Err(e)
    case Ok(claims) => if InTime(c, claims, now) then Ok(claims) else Err(LeaseExpired)
  }

  /** From Get up to Save: the stored lease, renewed from the first clock reading, or what is wrong. */
  function Load(c: Config, live: Items, claims: Claims, now: int): Result<Lease> {
    if claims.leaseId !in live then Err(LeaseMissing)
    else
      var lease := live[claims.leaseId];
      if lease.streamKey != claims.streamKey || lease.viewerId != claims.viewerId then Err(InvalidToken)
      else if now > lease.expiresAt + c.skew then Err(LeaseExpired)
      else Ok(lease.(issuedAt := now, expiresAt := now + c.ttl))
  }

  /** Both with nothing in between, Get reading the clock at `get`. */
  function Check(c: Config, items: Items, token: string, now: int, get: int): Result<Lease> {
    match Admit(c, token, now)
    case Err(e) => Err(e)
    case Ok(claims) => Load(c, Collected(items, get), claims, now)
  }

  /** The store after a whole Reattach: Get collects unless the token was turned down before it. */
  function AfterReattach(c: Config, items: Items, token: string, r: Readings): Items {
    if Admit(c, token, r.now).Err? then items
    else
      match Check(c, items, token, r.now, r.get)
      case Err(_) => Collected(items, r.get)
      case Ok(lease) => Saved(Collected(items, r.get), lease, r.save)
  }

  /** A token signed for some claims is admitted exactly from its issue less the skew up to its end plus the
      skew, in whole seconds, and never without a lease id and a stream key. */
  lemma AdmittedExactly(c: Config, claims: Claims, now: int)
    requires Sound(c.codec)
    ensures Admit(c, Sign(c.codec, claims), now) ==
            if claims.leaseId == "" || claims.streamKey == "" then Err(InvalidToken)
            else if now < claims.issuedAt * 1_000_000_000 - c.skew || now > claims.expiresAt * 1_000_000_000 + c.skew then Err(LeaseExpired)
            else Ok(claims)
  {
    ParseUndoesSign(c.codec, claims);
  }

  /** What a lease's token says of it. */
  lemma TokenSays(lease: Lease)
    ensures var claims := ClaimsOf(lease);
            && claims.leaseId == lease.id && claims.streamKey == lease.streamKey && claims.viewerId == lease.viewerId
            && claims.issuedAt * 1_000_000_000 <= lease.issuedAt < (claims.issuedAt + 1) * 1_000_000_000
            && claims.expiresAt * 1_000_000_000 <= lease.expiresAt < (claims.expiresAt + 1) * 1_000_000_000
  {
    UnixWithin(lease.issuedAt);
    UnixWithin(lease.expiresAt);
  }

  lemma UnixWithin(t: int)
    ensures Unix(t) * SECOND <= t < (Unix(t) + 1) * SECOND
  {
  }

  /** Everything but the two times. */
  function Identity(lease: Lease): Lease { lease.(issuedAt := 0, expiresAt := 0) }

  // ---- the objects -----------------------------------------------------------------------

  class MemoryLeaseStore {
    var items: Items

    constructor ()
      ensures items == map[]
    {
      items := map[];
    }

    method Collect(now: int)
      modifies this
      ensures items == Collected(old(items), now)
    {
      var left := items.Keys;
      while left != {}
        invariant left <= old(items).Keys
        invariant items == map id | id in old(items) && (id in left || now <= old(items)[id].expiresAt) :: old(items)[id]
        decreases left
      {
        var id :| id in left;
        left := left - {id};
        if now > items[id].expiresAt {
          items := items - {id};
        }
      }
    }

    method Save(lease: Lease, now: int)
      modifies this
      ensures items == Saved(old(items), lease, now)
    {
      items := items[lease.id := lease];
      Collect(now);
    }

    method Get(id: string, now: int) returns (lease: Option<Lease>)
      modifies this
      ensures items == Collected(old(items), now)
      ensures lease == if id in items then Some(items[id]) else None
    {
      Collect(now);
      lease := if id in items then Some(items[id]) else None;
    }
  }

  class LeaseService {
    const config: Config
    const store: MemoryLeaseStore

    constructor (ttl: int, skew: int, codec: Codec)
      ensures fresh(store) && store.items == map[] && Configured(config) && config.codec == codec
      ensures ttl > 0 ==> config.ttl == ttl
      ensures skew >= 0 ==> config.skew == skew
    {
      config := Config(if ttl <= 0 then 90 * SECOND else ttl, if skew < 0 then 0 else skew, codec);
      store := new MemoryLeaseStore();
    }

    method Issue(input: LeaseInput, id: string, r: Readings) returns (lease: Lease, token: string)
      modifies store
      ensures lease == NewLease(config, input, id, r.now) && token == TokenOf(config, lease)
      ensures lease.id == id && lease.issuedAt == r.now && lease.expiresAt == r.now + config.ttl && lease.backend == "memory"
      ensures lease.streamKey == TrimSpace(input.streamKey) && lease.tenantId == TrimSpace(input.tenantId)
      ensures lease.deviceId == TrimSpace(input.deviceId) && lease.viewerId == TrimSpace(input.viewerId)
      ensures lease.preferredProtocol == if TrimSpace(input.preferredProtocol) == "" then "hls" else TrimSpace(input.preferredProtocol)
      ensures lease.lastKnownEndpoint == TrimSpace(input.lastKnownEndpoint) && lease.hlsUrl == TrimSpace(input.hlsUrl)
      ensures lease.webrtcUrl == TrimSpace(input.webrtcUrl) && lease.webrtcOfferUrl == TrimSpace(input.webrtcOfferUrl)
      ensures store.items == Saved(old(store.items), lease, r.save)
    {
      lease := NewLease(config, input, id, r.now);
      store.Save(lease, r.save);
      token := Sign(config.codec, ClaimsOf(lease));
    }

    /** Reattach renews and signs anew exactly when every check passes. */
    method Reattach(token: string, r: Readings) returns (result: Result<(Lease, string)>)
      modifies store
      ensures store.items == AfterReattach(config, old(store.items), token, r)
      ensures result == match Check(config, old(store.items), token, r.now, r.get)
                        case Err(e) => Err(e)
                        case Ok(lease) => Ok((lease, TokenOf(config, lease)))
    {
      var parsed := Parse(config.codec, token);
      if parsed.Err? {
        return Err(parsed.error);
      }
      var claims := parsed.value;
      if r.now < claims.issuedAt * SECOND - config.skew || r.now > claims.expiresAt * SECOND + config.skew {
        return Err(LeaseExpired);
      }
      var found := store.Get(claims.leaseId, r.get);
      if found == None {
        return Err(LeaseMissing);
      }
      var lease := found.value;
      if lease.streamKey != claims.streamKey || lease.viewerId != claims.viewerId {
        return Err(InvalidToken);
      }
      if r.now > lease.expiresAt + config.skew {
        return Err(LeaseExpired);
      }
      lease := lease.(issuedAt := r.now, expiresAt := r.now + config.ttl);
      store.Save(lease, r.save);
      result := Ok((lease, Sign(config.codec, ClaimsOf(lease))));
    }
  }
}
