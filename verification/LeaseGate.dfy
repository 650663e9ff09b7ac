/** The admission gate of the sync controller: how it names a sync's lease and when it
    takes the lease to be held, against what the sidecar's Acquire does. */
module LeaseGate {
  import opened Common
  import opened Lease

  // ----- resource names

  predicate IsLowerOrDigit(c: char) { 'a' <= c <= 'z' || '0' <= c <= '9' }

  predicate IsUpper(c: char) { 'A' <= c <= 'Z' }

  function Sanitize(c: char): char {
    if IsLowerOrDigit(c) || c == '-' then c
    else if IsUpper(c) then c - 'A' + 'a'
    else '-'
  }

  function Sanitized(id: string): string {
    seq(|id|, i requires 0 <= i < |id| => Sanitize(id[i]))
  }

  function TrimLeft(s: string): string {
    if s != [] && s[0] == '-' then TrimLeft(s[1..]) else s
  }

  function TrimRight(s: string): string {
    if s != [] && s[|s| - 1] == '-' then TrimRight(s[..|s| - 1]) else s
  }

  /** The name of everything kept for a sync: lease, CronJob and Secret. */
  function SafeName(id: string): string {
    TrimRight(TrimLeft(Sanitized(id)))
  }

  method K8sName(id: string) returns (name: string)
    ensures name == SafeName(id)
  {
    var b := "";
    for i := 0 to |id|
      invariant b == Sanitized(id)[..i]
    {
      if IsLowerOrDigit(id[i]) || id[i] == '-' {
        b := b + [id[i]];
      } else if IsUpper(id[i]) {
        b := b + [id[i] - 'A' + 'a'];
      } else {
        b := b + ['-'];
      }
    }
    assert b == Sanitized(id);
    name := TrimDashes(b);
  }

  method TrimDashes(b: string) returns (name: string)
    ensures name == TrimRight(TrimLeft(b))
  {
    name := b;
    while |name| > 0 && name[0] == '-'
      invariant TrimLeft(name) == TrimLeft(b)
    {
      name := name[1..];
    }
    while |name| > 0 && name[|name| - 1] == '-'
      invariant TrimRight(name) == TrimRight(TrimLeft(b))
    {
      name := name[..|name| - 1];
    }
  }

  /** What an API server accepts: letters, digits and inner dashes. */
  ghost predicate IsResourceName(s: string) {
    && (forall i | 0 <= i < |s| :: IsLowerOrDigit(s[i]) || s[i] == '-')
    && (s != [] ==> s[0] != '-' && s[|s| - 1] != '-')
  }

  lemma {:induction false} TrimLeftMeaning(s: string) returns (k: nat)
    ensures k <= |s| && TrimLeft(s) == s[k..]
    ensures (forall i | 0 <= i < k :: s[i] == '-') && (k < |s| ==> s[k] != '-')
  {
    k := 0;
    if s != [] && s[0] == '-' {
      var rest := TrimLeftMeaning(s[1..]);
      k := rest + 1;
      forall i | 0 <= i < k ensures s[i] == '-' {
        if i > 0 { assert s[i] == s[1..][i - 1]; }
      }
    }
  }

  lemma {:induction false} TrimRightMeaning(s: string) returns (k: nat)
    ensures k <= |s| && TrimRight(s) == s[..k]
    ensures (forall i | k <= i < |s| :: s[i] == '-') && (k > 0 ==> s[k - 1] != '-')
  {
    k := |s|;
    if s != [] && s[|s| - 1] == '-' {
      k := TrimRightMeaning(s[..|s| - 1]);
    }
  }

  /** The name is the sanitized id without the dashes at its ends. */
  lemma {:induction false} NameWindow(id: string) returns (lo: nat, hi: nat)
    ensures lo <= hi <= |id| && SafeName(id) == Sanitized(id)[lo..hi]
    ensures forall i | 0 <= i < |id| && !(lo <= i < hi) :: Sanitized(id)[i] == '-'
    ensures lo < hi ==> Sanitized(id)[lo] != '-' && Sanitized(id)[hi - 1] != '-'
  {
    var s := Sanitized(id);
    lo := TrimLeftMeaning(s);
    var m := TrimRightMeaning(s[lo..]);
    hi := lo + m;
    assert s[lo..hi] == s[lo..][..m];
    forall i | hi <= i < |id| ensures s[i] == '-' {
      assert s[i] == s[lo..][i - lo];
    }
  }

  lemma LegalNameIsFixed(s: string)
    requires IsResourceName(s)
    ensures SafeName(s) == s
  {
    assert Sanitized(s) == s;
  }

  /** Every sync id becomes a legal name, which is empty exactly when the id has no ASCII
      letter or digit; naming a name again changes nothing. */
  lemma {:induction false} SafeNameIsLegal(id: string)
    ensures IsResourceName(SafeName(id))
    ensures SafeName(id) == "" <==> forall i | 0 <= i < |id| :: !IsLowerOrDigit(id[i]) && !IsUpper(id[i])
    ensures SafeName(SafeName(id)) == SafeName(id)
  {
    var lo, hi := NameWindow(id);
    forall i | 0 <= i < |id|
      ensures Sanitized(id)[i] == '-' <==> !IsLowerOrDigit(id[i]) && !IsUpper(id[i])
      ensures Sanitized(id)[i] == '-' || IsLowerOrDigit(Sanitized(id)[i])
    {
    }
    LegalNameIsFixed(SafeName(id));
  }

  /** The ids read the same once case and punctuation are put aside. */
  predicate Alike(a: string, b: string) {
    |a| == |b| && forall i | 0 <= i < |a| :: Sanitize(a[i]) == Sanitize(b[i])
  }

  /** All ids that differ only in case or in punctuation share a name. */
  lemma AlikeIdsCollide(a: string, b: string)
    requires Alike(a, b)
    ensures SafeName(a) == SafeName(b)
  {
    assert Sanitized(a) == Sanitized(b);
  }

  /** Two such pairs. */
  lemma NamesCollide()
    ensures SafeName("aB") == SafeName("Ab") && SafeName("a_b") == SafeName("a-b")
  {
    assert Sanitized("aB") == Sanitized("Ab") == "ab";
    assert Sanitized("a_b") == Sanitized("a-b") == "a-b";
  }

  // ----- the gate

  /** Freshness as the controller sees it; a duration of 0 stands for an unset one. */
  predicate IsHeld(l: LeaseObject, now: int) {
    l.renewTime.Some? &&
    now < l.renewTime.value + (if l.durationSeconds > 0 then l.durationSeconds else LEASE_DURATION_SECONDS) * SECOND
  }

  /** The /run admission test: is the lease named after the sync held now? */
  function IsSyncLeaseHeld(id: string, leases: map<string, LeaseObject>, now: int): bool {
    var name := SafeName(id);
    id != "" && name != "" && name in leases && IsHeld(leases[name], now)
  }

  /** The two freshness tests differ only at the exact instant of expiry, or inside the
      window that a negative duration opens. */
  lemma FreshnessAgreesExcept(l: LeaseObject, now: int)
    ensures IsHeld(l, now) == !IsStale(l, now) <==>
      !(l.renewTime.Some? &&
        if l.durationSeconds >= 0 then now == l.renewTime.value + Duration(l.durationSeconds)
        else l.renewTime.value + l.durationSeconds * SECOND < now < l.renewTime.value + LEASE_DURATION_SECONDS * SECOND)
  {
    assert Duration(l.durationSeconds)
        == if l.durationSeconds == 0 then LEASE_DURATION_SECONDS * SECOND else l.durationSeconds * SECOND;
  }

  /** When the gate holds a sync back, Acquire on the same object gives up as well, writing
      nothing and reporting no success, if and only if the stored duration is not negative
      or has not yet put the expiry before the clock. */
  lemma GateImpliesNoAcquireIff(id: string, leases: map<string, LeaseObject>, s: State, p: Pod)
    requires p in s.pods && s.pods[p].phase.AcquireDecide?
    requires SafeName(id) in leases && leases[SafeName(id)] == s.pods[p].phase.seen
    requires IsSyncLeaseHeld(id, leases, s.pods[p].clock)
    ensures var seen := s.pods[p].phase.seen;
      Apply(s, DecideAcquire(p)) == SetPod(s, p, s.pods[p].(phase := Idle))
      <==> seen.durationSeconds >= 0 || s.pods[p].clock <= seen.renewTime.value + seen.durationSeconds * SECOND
  {
    var seen, idle := s.pods[p].phase.seen, s.pods[p].(phase := Idle);
    FreshnessAgreesExcept(seen, s.pods[p].clock);
    if IsStale(seen, s.pods[p].clock) {
      assert Apply(s, DecideAcquire(p)).pods[p].phase.AcquirePut?;
      assert SetPod(s, p, idle).pods[p].phase.Idle?;
    }
  }

  predicate IsAlphanumeric(id: string) {
    forall i | 0 <= i < |id| :: IsLowerOrDigit(id[i]) || IsUpper(id[i])
  }

  /** Letters a to z, digits and dashes stay, letters A to Z become small, and any other
      character becomes a dash. */
  lemma SanitizeMeaning(c: char)
    ensures var code := c as int;
      Sanitize(c) as int ==
        if 97 <= code <= 122 || 48 <= code <= 57 || code == 45 then code
        else if 65 <= code <= 90 then code + 32
        else 45
  {
  }

  /** An id of letters and digits is named by itself in lower case. */
  lemma AlphanumericName(id: string)
    requires IsAlphanumeric(id)
    ensures |SafeName(id)| == |id|
    ensures forall i | 0 <= i < |id| ::
      if IsUpper(id[i]) then SafeName(id)[i] as int == id[i] as int + 32 else SafeName(id)[i] == id[i]
  {
    var s := Sanitized(id);
    forall i | 0 <= i < |id| ensures s[i] != '-' { assert IsLowerOrDigit(id[i]) || IsUpper(id[i]); }
    assert TrimLeft(s) == s && TrimRight(s) == s;
  }

  /** A lease stamped less than its duration ago under the sync's name is found held, and one
      stamped longer ago is not; without one nothing is held. */
  lemma FreshLeaseIsFound(id: string, leases: map<string, LeaseObject>, now: int)
    requires id != "" && IsAlphanumeric(id)
    ensures IsSyncLeaseHeld(id, leases, now) <==>
      && SafeName(id) in leases && leases[SafeName(id)].renewTime.Some?
      && now < leases[SafeName(id)].renewTime.value
             + (if leases[SafeName(id)].durationSeconds > 0 then leases[SafeName(id)].durationSeconds else 60) * 1_000_000_000
  {
    AlphanumericName(id);
  }

  /** A sync id without a letter or digit has no lease, whatever is stored. */
  lemma NamelessIsNotHeld(id: string, leases: map<string, LeaseObject>, now: int)
    requires forall i | 0 <= i < |id| :: !IsLowerOrDigit(id[i]) && !IsUpper(id[i])
    ensures !IsSyncLeaseHeld(id, leases, now)
  {
    SafeNameIsLegal(id);
  }
}
