/**
 * The listening-port part of the dashboard's security audit. Two tables of
 * well-known ports (cleartext services and remote-access services) are
 * checked against the ports listening on a non-loopback address ("public")
 * and those listening on a loopback address ("localhost"); a port found on a
 * public address is reported as public even when it also listens on
 * loopback. The findings are then summarized per table and turned into
 * recommendations.
 *
 * The two sets of listening ports are inputs: reading the connection table
 * is not part of the model.
 */
module PortAudit {

  datatype Exposure = Public | Localhost

  /** A well-known port and the service it stands for. */
  datatype KnownPort = KnownPort(port: int, service: string)

  /** A well-known port found listening, and where. */
  datatype Finding = Finding(port: int, service: string, exposure: Exposure)

  /** Cleartext services, in the order the audit checks them. */
  const CleartextPorts: seq<KnownPort> :=
    [KnownPort(21, "FTP"), KnownPort(23, "Telnet"), KnownPort(80, "HTTP"),
     KnownPort(110, "POP3"), KnownPort(143, "IMAP")]

  /** Remote-access services, in the order the audit checks them. */
  const AccessPorts: seq<KnownPort> :=
    [KnownPort(22, "SSH"), KnownPort(5900, "VNC"), KnownPort(5901, "VNC"), KnownPort(3389, "RDP")]

  predicate Listening(k: KnownPort, public: set<int>, local: set<int>) {
    k.port in public || k.port in local
  }

  /** The finding for a listening port: public takes precedence over localhost. */
  function FindingFor(k: KnownPort, public: set<int>): Finding {
    Finding(k.port, k.service, if k.port in public then Public else Localhost)
  }

  /**
   * The findings for a table: a finding for each listening port of the
   * table, public when the port listens on a public address, and none for a
   * port that does not listen (the order is in ClassifyInTableOrder).
   */
  function Classify(table: seq<KnownPort>, public: set<int>, local: set<int>): (r: seq<Finding>)
    ensures |r| <= |table|
    ensures forall f :: f in r <==>
      exists i :: 0 <= i < |table| && Listening(table[i], public, local) && f == FindingFor(table[i], public)
    ensures forall j :: 0 <= j < |r| ==> (r[j].exposure == Public <==> r[j].port in public)
    ensures forall j :: 0 <= j < |r| ==> r[j].port in public || r[j].port in local
  {
    if table == [] then []
    else
      var head := if Listening(table[0], public, local) then [FindingFor(table[0], public)] else [];
      var r := head + Classify(table[1..], public, local);
      assert forall i :: 1 <= i < |table| ==> table[i] == table[1..][i - 1];
      r
  }

  datatype CleartextSummary = CleartextPublic | CleartextLocal | NoCleartext
  datatype AccessSummary = AccessPublic | AccessLocal | NoAccess

  datatype Recommendation =
    | SecurePublicCleartext   // secure or disable public cleartext services
    | SecureLocalCleartext    // secure cleartext services even on localhost
    | HardenPublicAccess      // harden public SSH/VNC/RDP
    | ReviewLocalAccess       // review localhost remote-access services

  predicate IsCleartextAdvice(r: Recommendation) {
    r.SecurePublicCleartext? || r.SecureLocalCleartext?
  }

  /** The outcome of the listening-port audit. */
  datatype Audit = Audit(
    cleartext: CleartextSummary,
    access: AccessSummary,
    findings: seq<Finding>,          // the cleartext findings, then the access findings
    recommendations: seq<Recommendation>,
    nothingListening: bool)          // the "no common risky/remote ports" note

  predicate AnyPublic(fs: seq<Finding>) {
    exists j :: 0 <= j < |fs| && fs[j].exposure == Public
  }

  function SummarizeCleartext(fs: seq<Finding>): CleartextSummary {
    if AnyPublic(fs) then CleartextPublic
    else if fs != [] then CleartextLocal
    else NoCleartext
  }

  function SummarizeAccess(fs: seq<Finding>): AccessSummary {
    if AnyPublic(fs) then AccessPublic
    else if fs != [] then AccessLocal
    else NoAccess
  }

  function CleartextAdvice(s: CleartextSummary): seq<Recommendation> {
    match s
    case CleartextPublic => [SecurePublicCleartext]
    case CleartextLocal => [SecureLocalCleartext]
    case NoCleartext => []
  }

  function AccessAdvice(s: AccessSummary): seq<Recommendation> {
    match s
    case AccessPublic => [HardenPublicAccess]
    case AccessLocal => [ReviewLocalAccess]
    case NoAccess => []
  }

  /** The listening-port audit for the given public and loopback listening ports. */
  function AuditPorts(public: set<int>, local: set<int>): (a: Audit)
    ensures a.findings == Classify(CleartextPorts, public, local) + Classify(AccessPorts, public, local)
    ensures a.nothingListening <==> a.findings == []
    ensures |a.recommendations| <= 2
    ensures forall i, j ::
      (0 <= i < |a.recommendations| && 0 <= j < |a.recommendations| &&
       IsCleartextAdvice(a.recommendations[i]) && !IsCleartextAdvice(a.recommendations[j])) ==> i < j
    ensures forall i, j :: 0 <= i < j < |a.recommendations| ==> a.recommendations[i] != a.recommendations[j]
  {
    var cleartext := Classify(CleartextPorts, public, local);
    var access := Classify(AccessPorts, public, local);
    var cleartextSummary := SummarizeCleartext(cleartext);
    var accessSummary := SummarizeAccess(access);
    Audit(cleartextSummary, accessSummary, cleartext + access, CleartextAdvice(cleartextSummary) + AccessAdvice(accessSummary),
          cleartext == [] && access == [])
  }

  /** The index of the first entry of a table for a port, or the table's length when there is none. */
  function Position(table: seq<KnownPort>, p: int): (n: nat)
    ensures n <= |table|
    ensures n < |table| ==> table[n].port == p
    ensures forall i :: 0 <= i < n ==> table[i].port != p
    decreases |table|
  {
    if table == [] then 0
    else if table[0].port == p then 0
    else 1 + Position(table[1..], p)
  }

  /** No port appears twice in a table. */
  predicate DistinctPorts(table: seq<KnownPort>) {
    forall i, j :: 0 <= i < j < |table| ==> table[i].port != table[j].port
  }

  lemma TablesHaveDistinctPorts()
    ensures DistinctPorts(CleartextPorts) && DistinctPorts(AccessPorts)
  {
  }

  /**
   * For a table without repeated ports, the findings follow the table's
   * order strictly: each listening port is reported once, and a port is
   * reported before every port that comes after it in the table.
   */
  lemma {:induction false} ClassifyInTableOrder(table: seq<KnownPort>, public: set<int>, local: set<int>)
    requires DistinctPorts(table)
    ensures var r := Classify(table, public, local);
      && (forall j, k :: 0 <= j < k < |r| ==> Position(table, r[j].port) < Position(table, r[k].port))
      && (forall j, k :: 0 <= j < k < |r| ==> r[j] != r[k])
    decreases |table|
  {
    if table != [] {
      var tail := table[1..];
      assert DistinctPorts(tail) by {
        forall i, j | 0 <= i < j < |tail| ensures tail[i].port != tail[j].port {
          assert tail[i] == table[i + 1] && tail[j] == table[j + 1];
        }
      }
      ClassifyInTableOrder(tail, public, local);
      var rt := Classify(tail, public, local);
      var head := if Listening(table[0], public, local) then [FindingFor(table[0], public)] else [];
      var r := Classify(table, public, local);
      assert r == head + rt;
      forall j, k | 0 <= j < k < |r|
        ensures Position(table, r[j].port) < Position(table, r[k].port)
      {
        TailFindingComesLater(table, public, local, rt[k - |head|]);
        if j >= |head| {
          TailFindingComesLater(table, public, local, rt[j - |head|]);
        }
      }
    }
  }

  /** A finding of the rest of a table is for a port after the table's first entry. */
  lemma TailFindingComesLater(table: seq<KnownPort>, public: set<int>, local: set<int>, f: Finding)
    requires DistinctPorts(table) && table != []
    requires f in Classify(table[1..], public, local)
    ensures Position(table, f.port) == 1 + Position(table[1..], f.port) >= 1
  {
    var tail := table[1..];
    var i :| 0 <= i < |tail| && Listening(tail[i], public, local) && f == FindingFor(tail[i], public);
    assert tail[i] == table[i + 1];
  }

  /** The ports of a table. */
  predicate InTable(p: int, table: seq<KnownPort>) {
    exists i :: 0 <= i < |table| && table[i].port == p
  }

  lemma {:induction false} AnyPublicIff(table: seq<KnownPort>, public: set<int>, local: set<int>)
    ensures AnyPublic(Classify(table, public, local)) <==> exists p :: p in public && InTable(p, table)
  {
    var r := Classify(table, public, local);
    if p :| p in public && InTable(p, table) {
      var i :| 0 <= i < |table| && table[i].port == p;
      var f := FindingFor(table[i], public);
      assert f in r;
      var j :| 0 <= j < |r| && r[j] == f;
    }
    if AnyPublic(r) {
      var j :| 0 <= j < |r| && r[j].exposure == Public;
      assert r[j] in r;
    }
  }

  lemma {:induction false} NoneListeningIff(table: seq<KnownPort>, public: set<int>, local: set<int>)
    ensures Classify(table, public, local) == [] <==> forall i :: 0 <= i < |table| ==> !Listening(table[i], public, local)
  {
    var r := Classify(table, public, local);
    if i :| 0 <= i < |table| && Listening(table[i], public, local) {
      assert FindingFor(table[i], public) in r;
    }
    if r != [] {
      assert r[0] in r;
    }
  }

  /**
   * The cleartext verdict: public exactly when some cleartext port listens on
   * a public address; localhost exactly when none does but one listens on
   * loopback; otherwise none.
   */
  lemma CleartextVerdict(public: set<int>, local: set<int>)
    ensures var a := AuditPorts(public, local);
      && (a.cleartext == CleartextPublic <==> exists p :: p in public && InTable(p, CleartextPorts))
      && (a.cleartext == NoCleartext <==>
            forall i :: 0 <= i < |CleartextPorts| ==> !Listening(CleartextPorts[i], public, local))
      && (SecurePublicCleartext in a.recommendations <==> exists p :: p in public && InTable(p, CleartextPorts))
      && (SecureLocalCleartext in a.recommendations <==> a.cleartext == CleartextLocal)
  {
    AnyPublicIff(CleartextPorts, public, local);
    NoneListeningIff(CleartextPorts, public, local);
  }

  /** The same for remote-access services. */
  lemma AccessVerdict(public: set<int>, local: set<int>)
    ensures var a := AuditPorts(public, local);
      && (a.access == AccessPublic <==> exists p :: p in public && InTable(p, AccessPorts))
      && (a.access == NoAccess <==>
            forall i :: 0 <= i < |AccessPorts| ==> !Listening(AccessPorts[i], public, local))
      && (HardenPublicAccess in a.recommendations <==> exists p :: p in public && InTable(p, AccessPorts))
      && (ReviewLocalAccess in a.recommendations <==> a.access == AccessLocal)
  {
    AnyPublicIff(AccessPorts, public, local);
    NoneListeningIff(AccessPorts, public, local);
  }

  /** Services listening on loopback only are never reported as public, nor recommended for hardening. */
  lemma LoopbackOnlyNeverPublic(local: set<int>)
    ensures var a := AuditPorts({}, local);
      && (forall f :: f in a.findings ==> f.exposure == Localhost)
      && SecurePublicCleartext !in a.recommendations
      && HardenPublicAccess !in a.recommendations
  {
    AnyPublicIff(CleartextPorts, {}, local);
    AnyPublicIff(AccessPorts, {}, local);
  }

  /** SSH on a public address and HTTP on loopback only: both reported, each where it listens. */
  lemma MixedExample()
    ensures var a := AuditPorts({22}, {80, 22});
      && a.findings == [Finding(80, "HTTP", Localhost), Finding(22, "SSH", Public)]
      && a.cleartext == CleartextLocal && a.access == AccessPublic
      && a.recommendations == [SecureLocalCleartext, HardenPublicAccess]
  {
    var public, local := {22}, {80, 22};
    var c := CleartextPorts;
    assert Classify(c[4..], public, local) == [];
    assert c[3..][1..] == c[4..];
    assert Classify(c[3..], public, local) == [];
    assert c[2..][1..] == c[3..];
    assert Classify(c[2..], public, local) == [Finding(80, "HTTP", Localhost)];
    assert c[1..][1..] == c[2..];
    assert Classify(c[1..], public, local) == [Finding(80, "HTTP", Localhost)];
    assert Classify(c, public, local) == [Finding(80, "HTTP", Localhost)];
    var x := AccessPorts;
    assert Classify(x[3..], public, local) == [] by {
      assert x[3..][1..] == [];
    }
    assert x[2..][1..] == x[3..];
    assert Classify(x[2..], public, local) == [];
    assert x[1..][1..] == x[2..];
    assert Classify(x[1..], public, local) == [];
    assert Classify(x, public, local) == [Finding(22, "SSH", Public)];
    assert AnyPublic([Finding(22, "SSH", Public)]) by {
      assert [Finding(22, "SSH", Public)][0].exposure == Public;
    }
  }
}
