/** Step 4 of the robot: every extracted service is saved in the
    `appointments` collection under its service number, unless a document
    with that id already exists. The collection is a map from document id
    to document; the Firestore round trips are sequential calls on it. */
module Appointments {
  import opened Extraction

  /** Document id to document. */
  type Collection = map<string, Service>

  /** One pass of the save loop: `s` is written under its service number
      only when no document has that id. */
  function InsertIfAbsent(docs: Collection, s: Service): (r: Collection)
    ensures r.Keys == docs.Keys + {s.serviceNumber}
    ensures forall k :: k in docs ==> r[k] == docs[k]
  {
    if s.serviceNumber in docs then docs else docs[s.serviceNumber := s]
  }

  /** The collection after the save loop has run over `services` in order. */
  function SaveAll(docs: Collection, services: seq<Service>): (r: Collection)
    ensures docs.Keys <= r.Keys
  {
    if services == [] then docs
    else
      var n := |services| - 1;
      InsertIfAbsent(SaveAll(docs, services[..n]), services[n])
  }

  /** The documents the save loop writes, in the order it writes them. */
  function Writes(docs: Collection, services: seq<Service>): seq<Service> {
    if services == [] then []
    else
      var n := |services| - 1;
      Writes(docs, services[..n])
        + (if services[n].serviceNumber in SaveAll(docs, services[..n]) then [] else [services[n]])
  }

  /** The service numbers of `services`. */
  function ServiceNumbers(services: seq<Service>): set<string> {
    set s | s in services :: s.serviceNumber
  }

  /** One more service adds its service number. */
  lemma ServiceNumbersSnoc(services: seq<Service>, s: Service)
    ensures ServiceNumbers(services + [s]) == ServiceNumbers(services) + {s.serviceNumber}
  {
    forall k | k in ServiceNumbers(services + [s])
      ensures k in ServiceNumbers(services) + {s.serviceNumber}
    {
      var t :| t in services + [s] && t.serviceNumber == k;
      if t != s { assert t in services; }
    }
    forall k | k in ServiceNumbers(services) ensures k in ServiceNumbers(services + [s]) {
      var t :| t in services && t.serviceNumber == k;
      assert t in services + [s];
    }
    assert s in services + [s];
  }

  /** `services[i]` is the first entry with its service number. */
  predicate IsFirstOccurrence(services: seq<Service>, i: int) {
    0 <= i < |services| &&
    forall j :: 0 <= j < i ==> services[j].serviceNumber != services[i].serviceNumber
  }

  lemma SaveAllSnoc(docs: Collection, services: seq<Service>, s: Service)
    ensures SaveAll(docs, services + [s]) == InsertIfAbsent(SaveAll(docs, services), s)
    ensures Writes(docs, services + [s]) == Writes(docs, services)
              + (if s.serviceNumber in SaveAll(docs, services) then [] else [s])
  {
    assert (services + [s])[..|services|] == services;
  }

  /** The ids after the save loop are the old ids and the service numbers
      of the list: nothing is deleted and nothing else is added. */
  lemma {:induction false} SaveAllKeys(docs: Collection, services: seq<Service>)
    ensures SaveAll(docs, services).Keys == docs.Keys + ServiceNumbers(services)
  {
    if services != [] {
      var n := |services| - 1;
      var p, x := services[..n], services[n];
      assert services == p + [x];
      SaveAllSnoc(docs, p, x);
      SaveAllKeys(docs, p);
      ServiceNumbersSnoc(p, x);
    }
  }

  /** A document that existed before the save loop keeps its value. */
  lemma {:induction false} SaveAllKeepsExisting(docs: Collection, services: seq<Service>)
    ensures forall k :: k in docs ==> k in SaveAll(docs, services) && SaveAll(docs, services)[k] == docs[k]
  {
    if services != [] {
      var n := |services| - 1;
      var p, x := services[..n], services[n];
      assert services == p + [x];
      SaveAllSnoc(docs, p, x);
      SaveAllKeepsExisting(docs, p);
    }
  }

  /** Under a service number that had no document, the save loop leaves the
      first service in list order that carries it. */
  lemma {:induction false} SaveAllFirstWins(docs: Collection, services: seq<Service>)
    ensures forall i :: IsFirstOccurrence(services, i) && services[i].serviceNumber !in docs ==>
              && services[i].serviceNumber in SaveAll(docs, services)
              && SaveAll(docs, services)[services[i].serviceNumber] == services[i]
  {
    if services != [] {
      var n := |services| - 1;
      var p, x := services[..n], services[n];
      assert services == p + [x];
      SaveAllSnoc(docs, p, x);
      SaveAllFirstWins(docs, p);
      SaveAllKeys(docs, p);
      var before := SaveAll(docs, p);
      forall i | IsFirstOccurrence(services, i) && services[i].serviceNumber !in docs
        ensures services[i].serviceNumber in SaveAll(docs, services)
        ensures SaveAll(docs, services)[services[i].serviceNumber] == services[i]
      {
        if i < n {
          assert services[i] == p[i];
          assert IsFirstOccurrence(p, i);
          assert p[i] in p;
        } else {
          assert x.serviceNumber !in before;
        }
      }
    }
  }

  /** Saving into a collection that already holds every service number
      changes nothing. */
  lemma {:induction false} SaveAllPresent(docs: Collection, services: seq<Service>)
    requires ServiceNumbers(services) <= docs.Keys
    ensures SaveAll(docs, services) == docs
  {
    if services != [] {
      var n := |services| - 1;
      assert services[n] in services;
      assert ServiceNumbers(services[..n]) <= ServiceNumbers(services) by {
        forall k | k in ServiceNumbers(services[..n]) ensures k in ServiceNumbers(services) {
          var s :| s in services[..n] && s.serviceNumber == k;
          assert s in services;
        }
      }
      SaveAllPresent(docs, services[..n]);
    }
  }

  /** Running the save loop a second time over the same list leaves the
      collection as the first run left it. */
  lemma SaveAllIdempotent(docs: Collection, services: seq<Service>)
    ensures SaveAll(SaveAll(docs, services), services) == SaveAll(docs, services)
  {
    SaveAllKeys(docs, services);
    SaveAllPresent(SaveAll(docs, services), services);
  }

  /** Every write of the save loop goes to an id that had no document
      before the loop, and the document it writes is the one the collection
      holds afterwards. */
  lemma {:induction false} WritesAreNew(docs: Collection, services: seq<Service>)
    ensures forall j :: 0 <= j < |Writes(docs, services)| ==>
              && Writes(docs, services)[j].serviceNumber !in docs
              && Writes(docs, services)[j].serviceNumber in SaveAll(docs, services)
              && SaveAll(docs, services)[Writes(docs, services)[j].serviceNumber] == Writes(docs, services)[j]
  {
    if services != [] {
      var n := |services| - 1;
      var p, x := services[..n], services[n];
      assert services == p + [x];
      SaveAllSnoc(docs, p, x);
      WritesAreNew(docs, p);
      var w, before := Writes(docs, p), SaveAll(docs, p);
      if x.serviceNumber !in before {
        assert Writes(docs, services) == w + [x];
        SaveAllKeys(docs, p);
        assert x.serviceNumber !in docs;
      }
    }
  }

  /** No id is written twice by the save loop. */
  lemma {:induction false} WritesDistinct(docs: Collection, services: seq<Service>)
    ensures forall i, j :: 0 <= i < j < |Writes(docs, services)| ==>
              Writes(docs, services)[i].serviceNumber != Writes(docs, services)[j].serviceNumber
  {
    if services != [] {
      var n := |services| - 1;
      var p, x := services[..n], services[n];
      assert services == p + [x];
      SaveAllSnoc(docs, p, x);
      WritesDistinct(docs, p);
      WritesAreNew(docs, p);
      var w, before := Writes(docs, p), SaveAll(docs, p);
      if x.serviceNumber !in before {
        assert Writes(docs, services) == w + [x];
        assert forall j :: 0 <= j < |w| ==> w[j].serviceNumber in before;
      }
    }
  }

  /** The ids after the save loop are the old ids plus exactly the ids the
      loop wrote. */
  lemma {:induction false} WritesKeys(docs: Collection, services: seq<Service>)
    ensures SaveAll(docs, services).Keys == docs.Keys + ServiceNumbers(Writes(docs, services))
  {
    if services != [] {
      var n := |services| - 1;
      var p, x := services[..n], services[n];
      assert services == p + [x];
      SaveAllSnoc(docs, p, x);
      WritesKeys(docs, p);
      var w, before := Writes(docs, p), SaveAll(docs, p);
      if x.serviceNumber !in before {
        assert Writes(docs, services) == w + [x];
        ServiceNumbersSnoc(w, x);
      }
    }
  }

  /** The `appointments` collection, updated in place by the robot. */
  class AppointmentStore {
    /** Document id to document. */
    var docs: Collection
    /** Every `set` issued on the collection, in order. */
    ghost var writes: seq<Service>

    constructor (initial: Collection)
      ensures docs == initial && writes == []
    {
      docs := initial;
      writes := [];
    }

    /** `doc(id).get()` followed by `.exists`. */
    method Exists(id: string) returns (found: bool)
      ensures found <==> id in docs
    {
      found := id in docs;
    }

    /** `doc(id).set(data)`: the document is replaced whole. */
    method Set(id: string, data: Service)
      modifies this
      ensures docs == old(docs)[id := data]
      ensures writes == old(writes) + [data]
    {
      docs := docs[id := data];
      writes := writes + [data];
    }

    /** The `for ... of` loop over the extracted services: each one is
        written under its service number when that document does not
        exist yet. */
    method Save(services: seq<Service>)
      modifies this
      ensures docs == SaveAll(old(docs), services)
      ensures writes == old(writes) + Writes(old(docs), services)
    {
      for i := 0 to |services|
        invariant docs == SaveAll(old(docs), services[..i])
        invariant writes == old(writes) + Writes(old(docs), services[..i])
      {
        var s := services[i];
        assert services[..i + 1] == services[..i] + [s];
        SaveAllSnoc(old(docs), services[..i], s);
        var found := Exists(s.serviceNumber);
        if !found {
          Set(s.serviceNumber, s);
        }
      }
      assert services[..|services|] == services;
    }
  }
}
