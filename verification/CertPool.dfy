/**
 The certificate pool of internal/pkg/tls/certpool.go: a queue of certificates with a name index, and a
 pool rebuilt from it when a dirty flag says so. This file has the sequential class and what its loops
 compute; CertPoolSteps.dfy has the interleavings.
 */
module CertPools {
  import opened Wrappers

  // A *x509.Certificate: two of them are the same pointer when they are equal, and hold the same
  // certificate when their raw bytes are.
  datatype Certificate = Certificate(address: nat, raw: string) {
    predicate Same(other: Certificate) {
      raw == other.raw
    }
  }

  // Reading the subject's bytes out of a certificate's.
  type SubjectReader = string -> string

  // ---- The name index ----

  // The positions of the certificates with a given subject, in order.
  function Positions(certs: seq<Certificate>, subject: SubjectReader, name: string): seq<nat> {
    if certs == [] then []
    else
      var last := |certs| - 1;
      Positions(certs[..last], subject, name) + if subject(certs[last].raw) == name then [last] else []
  }

  function Lookup(index: map<string, seq<nat>>, name: string): seq<nat> {
    if name in index then index[name] else []
  }

  ghost predicate IndexExact(certs: seq<Certificate>, subject: SubjectReader, index: map<string, seq<nat>>) {
    forall name :: Lookup(index, name) == Positions(certs, subject, name)
  }

  // The index lists exactly the positions of each subject, once each and in increasing order.
  lemma {:induction false} PositionsExact(certs: seq<Certificate>, subject: SubjectReader, name: string)
    ensures var ps := Positions(certs, subject, name);
            && (forall i :: 0 <= i < |ps| ==> ps[i] < |certs|)
            && (forall i, j :: 0 <= i < j < |ps| ==> ps[i] < ps[j])
            && (forall p :: p in ps <==> 0 <= p < |certs| && subject(certs[p].raw) == name)
  {
    if certs != [] {
      PositionsExact(certs[..|certs| - 1], subject, name);
    }
  }

  function IndexAdd(index: map<string, seq<nat>>, name: string, position: nat): map<string, seq<nat>> {
    index[name := Lookup(index, name) + [position]]
  }

  lemma IndexAddExact(certs: seq<Certificate>, subject: SubjectReader, index: map<string, seq<nat>>, c: Certificate)
    requires IndexExact(certs, subject, index)
    ensures IndexExact(certs + [c], subject, IndexAdd(index, subject(c.raw), |certs|))
  {
    var index' := IndexAdd(index, subject(c.raw), |certs|);
    forall name ensures Lookup(index', name) == Positions(certs + [c], subject, name) {
      assert (certs + [c])[..|certs|] == certs;
      assert Lookup(index, name) == Positions(certs, subject, name);
    }
  }

  // ---- Which certificates an Add admits ----

  predicate Stored(certs: seq<Certificate>, c: Certificate) {
    exists k :: 0 <= k < |certs| && certs[k].Same(c)
  }

  predicate StoredByIndex(certs: seq<Certificate>, positions: seq<nat>, c: Certificate) {
    exists i :: 0 <= i < |positions| && positions[i] < |certs| && certs[positions[i]].Same(c)
  }

  // Looking under the subject's name finds a certificate exactly when a full scan does.
  lemma IndexFindsAll(certs: seq<Certificate>, subject: SubjectReader, index: map<string, seq<nat>>, c: Certificate)
    requires IndexExact(certs, subject, index)
    ensures StoredByIndex(certs, Lookup(index, subject(c.raw)), c) <==> Stored(certs, c)
  {
    var positions := Lookup(index, subject(c.raw));
    assert positions == Positions(certs, subject, subject(c.raw));
    PositionsExact(certs, subject, subject(c.raw));
    if Stored(certs, c) {
      var k :| 0 <= k < |certs| && certs[k].Same(c);
      assert k in positions;
    }
  }

  predicate Kept(certs: seq<Certificate>, arg: Option<Certificate>) {
    arg.Some? && !Stored(certs, arg.value)
  }

  // The non-nil arguments that are not stored yet, in order.
  function Unknown(certs: seq<Certificate>, args: seq<Option<Certificate>>): seq<Certificate> {
    if args == [] then []
    else
      var last := args[|args| - 1];
      Unknown(certs, args[..|args| - 1]) + if Kept(certs, last) then [last.value] else []
  }

  // The first occurrence of each pointer, in order.
  function Distinct(cs: seq<Certificate>): seq<Certificate> {
    if cs == [] then []
    else
      var init, last := cs[..|cs| - 1], cs[|cs| - 1];
      Distinct(init) + if last in init then [] else [last]
  }

  function Admitted(certs: seq<Certificate>, args: seq<Option<Certificate>>): seq<Certificate> {
    Distinct(Unknown(certs, args))
  }

  // Where each pointer occurs first.
  function FirstPositions(cs: seq<Certificate>): seq<nat> {
    if cs == [] then []
    else
      var init, last := cs[..|cs| - 1], cs[|cs| - 1];
      FirstPositions(init) + if last in init then [] else [|init|]
  }

  lemma {:induction false} DistinctIsFirstOccurrences(cs: seq<Certificate>)
    ensures var ps := FirstPositions(cs);
            && |Distinct(cs)| == |ps|
            && (forall i, j :: 0 <= i < j < |ps| ==> ps[i] < ps[j])
            && (forall i :: 0 <= i < |ps| ==> ps[i] < |cs| && cs[ps[i]] !in cs[..ps[i]] && Distinct(cs)[i] == cs[ps[i]])
            && (forall c :: c in Distinct(cs) <==> c in cs)
            && (forall i, j :: 0 <= i < j < |Distinct(cs)| ==> Distinct(cs)[i] != Distinct(cs)[j])
  {
    if cs != [] {
      var init := cs[..|cs| - 1];
      DistinctIsFirstOccurrences(init);
      var ps := FirstPositions(cs);
      assert cs == init + [cs[|cs| - 1]];
      forall i | 0 <= i < |ps| ensures ps[i] < |cs| && cs[ps[i]] !in cs[..ps[i]] && Distinct(cs)[i] == cs[ps[i]] {
        if i < |FirstPositions(init)| {
          assert cs[..ps[i]] == init[..ps[i]];
        }
      }
    }
  }

  lemma {:induction false} UnknownMembers(certs: seq<Certificate>, args: seq<Option<Certificate>>)
    ensures forall c :: c in Unknown(certs, args) <==> Some(c) in args && !Stored(certs, c)
  {
    if args != [] {
      UnknownMembers(certs, args[..|args| - 1]);
      assert args == args[..|args| - 1] + [args[|args| - 1]];
    }
  }

  // Where the arguments that are kept stand.
  function KeptPositions(certs: seq<Certificate>, args: seq<Option<Certificate>>): seq<nat> {
    if args == [] then []
    else
      var last := args[|args| - 1];
      KeptPositions(certs, args[..|args| - 1]) + if Kept(certs, last) then [|args| - 1] else []
  }

  lemma {:induction false} KeptPositionsExact(certs: seq<Certificate>, args: seq<Option<Certificate>>)
    ensures var ps := KeptPositions(certs, args);
            && (forall i :: 0 <= i < |ps| ==> ps[i] < |args|)
            && (forall i, j :: 0 <= i < j < |ps| ==> ps[i] < ps[j])
            && (forall p :: p in ps <==> 0 <= p < |args| && Kept(certs, args[p]))
  {
    if args != [] {
      KeptPositionsExact(certs, args[..|args| - 1]);
    }
  }

  lemma {:induction false} UnknownStand(certs: seq<Certificate>, args: seq<Option<Certificate>>)
    ensures |Unknown(certs, args)| == |KeptPositions(certs, args)|
    ensures forall i :: 0 <= i < |KeptPositions(certs, args)| ==>
              && KeptPositions(certs, args)[i] < |args|
              && args[KeptPositions(certs, args)[i]] == Some(Unknown(certs, args)[i])
  {
    if args != [] {
      UnknownStand(certs, args[..|args| - 1]);
    }
  }

  // Filtering keeps exactly the non-nil arguments that are not stored, in the order they were given.
  lemma UnknownInOrder(certs: seq<Certificate>, args: seq<Option<Certificate>>)
    ensures var ps := KeptPositions(certs, args);
            && |Unknown(certs, args)| == |ps|
            && (forall i, j :: 0 <= i < j < |ps| ==> ps[i] < ps[j])
            && (forall i :: 0 <= i < |ps| ==> ps[i] < |args| && args[ps[i]] == Some(Unknown(certs, args)[i]))
            && (forall p :: p in ps <==> 0 <= p < |args| && args[p].Some? && !Stored(certs, args[p].value))
  {
    KeptPositionsExact(certs, args);
    UnknownStand(certs, args);
  }

  // One Add appends each non-nil pointer among its arguments that is not stored yet, once.
  lemma AdmittedExactly(certs: seq<Certificate>, args: seq<Option<Certificate>>)
    ensures forall c :: c in Admitted(certs, args) <==> Some(c) in args && !Stored(certs, c)
    ensures forall i, j :: 0 <= i < j < |Admitted(certs, args)| ==> Admitted(certs, args)[i] != Admitted(certs, args)[j]
  {
    UnknownMembers(certs, args);
    DistinctIsFirstOccurrences(Unknown(certs, args));
  }

  // ---- x509 pools ----

  function PoolAdd(pool: seq<Certificate>, c: Certificate): seq<Certificate> {
    if Stored(pool, c) then pool else pool + [c]
  }

  // A pool loaded from the system's certificates with these added.
  function Built(system: seq<Certificate>, certs: seq<Certificate>): seq<Certificate> {
    if certs == [] then system else PoolAdd(Built(system, certs[..|certs| - 1]), certs[|certs| - 1])
  }

  lemma {:induction false} BuiltGrows(system: seq<Certificate>, certs: seq<Certificate>, m: nat, n: nat)
    requires m <= n <= |certs|
    ensures Built(system, certs[..m]) <= Built(system, certs[..n])
    decreases n - m
  {
    if m < n {
      BuiltGrows(system, certs, m, n - 1);
      assert certs[..n][..n - 1] == certs[..n - 1];
    }
  }

  lemma {:induction false} BuiltHoldsAll(system: seq<Certificate>, certs: seq<Certificate>)
    ensures forall c :: Stored(Built(system, certs), c) <==> Stored(system, c) || Stored(certs, c)
  {
    if certs != [] {
      var init, last := certs[..|certs| - 1], certs[|certs| - 1];
      BuiltHoldsAll(system, init);
      forall c ensures Stored(Built(system, certs), c) <==> Stored(system, c) || Stored(certs, c) {
        PoolAddHolds(Built(system, init), last, c);
        PushHolds(init, last, c);
        assert certs == init + [last];
      }
    }
  }

  lemma PushHolds(certs: seq<Certificate>, last: Certificate, c: Certificate)
    ensures Stored(certs + [last], c) <==> Stored(certs, c) || last.Same(c)
  {
    if Stored(certs, c) {
      var k :| 0 <= k < |certs| && certs[k].Same(c);
      assert (certs + [last])[k].Same(c);
    }
    if last.Same(c) {
      assert (certs + [last])[|certs|].Same(c);
    }
  }

  lemma PoolAddHolds(pool: seq<Certificate>, last: Certificate, c: Certificate)
    ensures Stored(PoolAdd(pool, last), c) <==> Stored(pool, c) || last.Same(c)
  {
    PushHolds(pool, last, c);
    if Stored(pool, last) && last.Same(c) {
      var k :| 0 <= k < |pool| && pool[k].Same(last);
      assert pool[k].Same(c);
    }
  }

  // An *x509.CertPool.
  class X509Pool {
    var certs: seq<Certificate>

    constructor (system: seq<Certificate>)
      ensures certs == system
    {
      certs := system;
    }

    method AddCert(c: Certificate)
      modifies this
      ensures certs == PoolAdd(old(certs), c)
    {
      if !Stored(certs, c) {
        certs := certs + [c];
      }
    }
  }

  class CertPool {
    var certPool: X509Pool
    var certs: seq<Certificate>
    var certsByName: map<string, seq<nat>>
    var dirty: bool
    // What loading the system pool yields; empty unless the system pool is used.
    const system: seq<Certificate>
    const subject: SubjectReader
    // How many of the stored certificates the current pool was built from.
    ghost var covered: nat

    ghost predicate Valid()
      reads this, certPool
    {
      && IndexExact(certs, subject, certsByName)
      && covered <= |certs|
      && certPool.certs == Built(system, certs[..covered])
      && (!dirty ==> covered == |certs|)
    }

    constructor (system: seq<Certificate>, subject: SubjectReader)
      ensures Valid() && fresh(certPool)
      ensures certs == [] && !dirty && this.system == system && this.subject == subject
    {
      this.system, this.subject := system, subject;
      certPool := new X509Pool(system);
      certs, certsByName, dirty, covered := [], map[], false, 0;
    }

    // The pool handed out holds the system's and every stored certificate; one handed out before is left alone.
    method Get() returns (r: X509Pool)
      requires Valid()
      modifies this
      ensures Valid() && r == certPool && !dirty
      ensures certs == old(certs)
      ensures r.certs == Built(system, certs)
      ensures if old(dirty) then fresh(r) else r == old(certPool)
    {
      if dirty {
        dirty := false;
        SwapCertPool();
      }
      assert certs[..|certs|] == certs;
      r := certPool;
    }

    method SwapCertPool()
      modifies this
      ensures certs == old(certs) && certsByName == old(certsByName) && dirty == old(dirty)
      ensures fresh(certPool) && certPool.certs == Built(system, certs) && covered == |certs|
    {
      var newCertPool := new X509Pool(system);
      assert certs[..0] == [];
      for i := 0 to |certs|
        invariant fresh(newCertPool) && unchanged(this)
        invariant newCertPool.certs == Built(system, certs[..i])
      {
        assert certs[..i + 1][..i] == certs[..i];
        newCertPool.AddCert(certs[i]);
      }
      assert certs[..|certs|] == certs;
      certPool := newCertPool;
      covered := |certs|;
    }

    method Add(args: seq<Option<Certificate>>)
      requires Valid()
      modifies this
      ensures Valid() && certPool == old(certPool)
      ensures certs == old(certs) + Admitted(old(certs), args)
      ensures dirty == (old(dirty) || Admitted(old(certs), args) != [])
    {
      if |args| == 0 {
        return;
      }
      var certsToBeAdded := FilterCerts(args);
      if |certsToBeAdded| > 0 {
        for i := 0 to |certsToBeAdded|
          invariant certs == old(certs) + certsToBeAdded[..i]
          invariant IndexExact(certs, subject, certsByName)
          invariant unchanged(`certPool) && unchanged(`covered) && unchanged(`dirty)
        {
          Enqueue(certsToBeAdded[i]);
          assert certsToBeAdded[..i + 1] == certsToBeAdded[..i] + [certsToBeAdded[i]];
        }
        assert certsToBeAdded[..|certsToBeAdded|] == certsToBeAdded;
        assert certs[..covered] == old(certs)[..covered];
        dirty := true;
      }
    }

    // Lines 79-83: one certificate under its name and at the end of the queue.
    method Enqueue(newCert: Certificate)
      requires IndexExact(certs, subject, certsByName)
      modifies `certs, `certsByName
      ensures certs == old(certs) + [newCert]
      ensures IndexExact(certs, subject, certsByName)
    {
      IndexAddExact(certs, subject, certsByName, newCert);
      var name := subject(newCert.raw);
      certsByName := certsByName[name := Lookup(certsByName, name) + [|certs|]];
      certs := certs + [newCert];
    }

    method FilterCerts(args: seq<Option<Certificate>>) returns (r: seq<Certificate>)
      requires IndexExact(certs, subject, certsByName)
      ensures r == Admitted(certs, args)
    {
      var filtered := [];
      for i := 0 to |args|
        invariant filtered == Unknown(certs, args[..i])
      {
        assert args[..i + 1][..i] == args[..i];
        if args[i].None? {
          continue;
        }
        var cert := args[i].value;
        var possibilities := Lookup(certsByName, subject(cert.raw));
        IndexFindsAll(certs, subject, certsByName, cert);
        PositionsExact(certs, subject, subject(cert.raw));
        assert possibilities == Positions(certs, subject, subject(cert.raw));
        var known := false;
        for j := 0 to |possibilities|
          invariant !known
          invariant forall k :: 0 <= k < j ==> !certs[possibilities[k]].Same(cert)
        {
          if certs[possibilities[j]].Same(cert) {
            known := true;
            break;
          }
        }
        assert known == StoredByIndex(certs, possibilities, cert);
        if !known {
          filtered := filtered + [cert];
        }
      }
      assert args[..|args|] == args;
      r := RemoveDuplicates(filtered);
    }

    static method RemoveDuplicates(certs: seq<Certificate>) returns (result: seq<Certificate>)
      ensures result == Distinct(certs)
    {
      var encountered: set<Certificate> := {};
      result := [];
      for v := 0 to |certs|
        invariant result == Distinct(certs[..v])
        invariant forall c :: c in encountered <==> c in certs[..v]
      {
        assert certs[..v + 1][..v] == certs[..v];
        if certs[v] !in encountered {
          encountered := encountered + {certs[v]};
          result := result + [certs[v]];
        }
      }
      assert certs[..|certs|] == certs;
    }
  }
}
