/** One run of the robot: the login gate (step 2), then extraction (step 3)
    and saving (step 4). Logging in, navigating and reading the page are
    browser work and arrive as inputs: the URL the page shows after the
    login attempt, the cells of the listing table and the clock readings. */
module Robot {
  import opened JsString
  import opened Extraction
  import opened Appointments

  /** The login page; the robot starts here. */
  const LoginUrl: string := "https://www.clientes.homeserve.es/cgi-bin/fccgi.exe?w3exec=PROF_PASS"

  /** The text whose presence in the URL means the login page is still shown. */
  const LoginMarker: string := "PROF_PASS"

  /** The message of the error thrown when the login did not go through. */
  const LoginError: string := "No pudimos pasar del login."

  /** The login gate: the page after the login attempt is still the login page. */
  predicate StillOnLogin(url: string) {
    Includes(url, LoginMarker)
  }

  /** How a run ends: the login error, or the services found and saved. */
  datatype RunOutcome = LoginRejected(message: string) | Completed(found: nat)

  /** The collection after a run: untouched when the gate fails, otherwise
      the save loop over the extracted services. */
  function RunEffect(docs: Collection, url: string, rows: seq<Row>, stamps: seq<string>): (r: Collection)
    requires |stamps| == |rows|
    ensures docs.Keys <= r.Keys
  {
    if StillOnLogin(url) then docs else SaveAll(docs, ExtractSpec(rows, stamps))
  }

  /** `runRobot` from the URL check on: when the URL still names the login
      page the run throws before reading the listing or writing anything;
      otherwise it extracts the services and saves them. */
  method RunRobot(store: AppointmentStore, url: string, rows: seq<Row>, stamps: seq<string>)
    returns (outcome: RunOutcome)
    requires |stamps| == |rows|
    modifies store
    ensures outcome.LoginRejected? <==> StillOnLogin(url)
    ensures outcome.LoginRejected? ==> outcome.message == LoginError
    ensures outcome.LoginRejected? ==> store.docs == old(store.docs) && store.writes == old(store.writes)
    ensures outcome.Completed? ==> outcome.found == |ExtractSpec(rows, stamps)|
    ensures store.docs == RunEffect(old(store.docs), url, rows, stamps)
    ensures outcome.Completed? ==> store.writes == old(store.writes) + Writes(old(store.docs), ExtractSpec(rows, stamps))
  {
    if Includes(url, LoginMarker) {
      return LoginRejected(LoginError);
    }
    var services := Extract(rows, stamps);
    store.Save(services);
    outcome := Completed(|services|);
  }

  /** The gate rejects the login page itself: a login that leaves the
      browser where it started aborts the run. */
  lemma LoginPageRejected()
    ensures StillOnLogin(LoginUrl)
  {
    assert LoginUrl[59..68] == LoginMarker;
    assert OccursAt(LoginUrl, LoginMarker, 59);
  }

  /** A run whose gate passes saves every service row's reference; when no
      document had that id and no earlier service row carried the same
      reference, the document saved is the one built from that row. */
  lemma RunSavesServiceRows(docs: Collection, url: string, rows: seq<Row>, stamps: seq<string>, i: nat)
    requires |stamps| == |rows| && !StillOnLogin(url)
    requires i < |rows| && RowAccepted(rows[i])
    ensures Trim(rows[i][0]) in RunEffect(docs, url, rows, stamps)
    ensures Trim(rows[i][0]) !in docs
            && (forall j :: 0 <= j < i && RowAccepted(rows[j]) ==> Trim(rows[j][0]) != Trim(rows[i][0]))
            ==> RunEffect(docs, url, rows, stamps)[Trim(rows[i][0])] == RowService(rows[i], stamps[i])
  {
    var e, o := ExtractSpec(rows, stamps), Origins(rows);
    ExtractFromOrigins(rows, stamps);
    OriginsAreServiceRows(rows);
    SaveAllKeys(docs, e);
    var k :| 0 <= k < |o| && o[k] == i;
    assert e[k] == RowService(rows[i], stamps[i]);
    assert e[k] in e;
    if Trim(rows[i][0]) !in docs
       && (forall j :: 0 <= j < i && RowAccepted(rows[j]) ==> Trim(rows[j][0]) != Trim(rows[i][0]))
    {
      forall j | 0 <= j < k ensures e[j].serviceNumber != e[k].serviceNumber {
        assert o[j] < o[k];
        assert e[j] == RowService(rows[o[j]], stamps[o[j]]);
      }
      assert IsFirstOccurrence(e, k);
      SaveAllFirstWins(docs, e);
    }
  }

  /** A run never changes a document that existed before it. */
  lemma RunKeepsExisting(docs: Collection, url: string, rows: seq<Row>, stamps: seq<string>)
    requires |stamps| == |rows|
    ensures forall k :: k in docs ==>
              k in RunEffect(docs, url, rows, stamps) && RunEffect(docs, url, rows, stamps)[k] == docs[k]
  {
    SaveAllKeepsExisting(docs, ExtractSpec(rows, stamps));
  }

  /** Every id a run adds is the trimmed reference of some service row. */
  lemma RunAddsOnlyServiceRows(docs: Collection, url: string, rows: seq<Row>, stamps: seq<string>)
    requires |stamps| == |rows|
    ensures forall k :: k in RunEffect(docs, url, rows, stamps) && k !in docs ==>
              exists i :: 0 <= i < |rows| && RowAccepted(rows[i]) && Trim(rows[i][0]) == k
  {
    var e, o := ExtractSpec(rows, stamps), Origins(rows);
    ExtractFromOrigins(rows, stamps);
    OriginsAreServiceRows(rows);
    SaveAllKeys(docs, e);
    forall k | k in RunEffect(docs, url, rows, stamps) && k !in docs
      ensures exists i :: 0 <= i < |rows| && RowAccepted(rows[i]) && Trim(rows[i][0]) == k
    {
      var s :| s in e && s.serviceNumber == k;
      var m :| 0 <= m < |e| && e[m] == s;
      assert RowAccepted(rows[o[m]]) && Trim(rows[o[m]][0]) == k;
    }
  }

  /** Running the robot a second time on the same page, with the clock
      read again, leaves the collection as the first run left it. */
  lemma RunIdempotent(docs: Collection, url: string, rows: seq<Row>, s1: seq<string>, s2: seq<string>)
    requires |s1| == |rows| && |s2| == |rows|
    ensures RunEffect(RunEffect(docs, url, rows, s1), url, rows, s2) == RunEffect(docs, url, rows, s1)
  {
    if !StillOnLogin(url) {
      var e1, e2 := ExtractSpec(rows, s1), ExtractSpec(rows, s2);
      ExtractStampsOnlyCreatedAt(rows, s1, s2);
      assert ServiceNumbers(e2) <= ServiceNumbers(e1) by {
        forall k | k in ServiceNumbers(e2) ensures k in ServiceNumbers(e1) {
          var s :| s in e2 && s.serviceNumber == k;
          var j :| 0 <= j < |e2| && e2[j] == s;
          assert e1[j].serviceNumber == k;
        }
      }
      SaveAllKeys(docs, e1);
      SaveAllPresent(SaveAll(docs, e1), e2);
    }
  }
}
