/** The simulator choice of the link-preview job (`get_best_ipad_13` in
    `server.py`): among the 13-inch iPad simulators listed, a booted one is
    preferred, by a stable sort on "not booted". */
module Device {
  import opened Wrappers
  import opened Sorting

  /** One match of the listing: name, UUID and state. */
  datatype Sim = Sim(name: string, uuid: string, status: string)

  /** The sort key `status != "Booted"`, with False before True. */
  function BootRank(d: Sim): int
  {
    if d.status == "Booted" then 0 else 1
  }

  /** `(uuid, status)` of the first simulator after the sort, or None when the
      listing has no match. */
  function PickDevice(sims: seq<Sim>): Option<(string, string)>
  {
    if |sims| == 0 then None
    else
      var d := SortBy(sims, BootRank)[0];
      Some((d.uuid, d.status))
  }

  /** The first booted simulator in listing order wins; with none booted, the
      first simulator listed; with none listed, nothing. */
  lemma PickDeviceChoice(sims: seq<Sim>)
    ensures PickDevice(sims).None? <==> |sims| == 0
    ensures forall i :: 0 <= i < |sims| && sims[i].status == "Booted"
                        && (forall j :: 0 <= j < i ==> sims[j].status != "Booted") ==>
      PickDevice(sims) == Some((sims[i].uuid, sims[i].status))
    ensures |sims| > 0 && (forall j :: 0 <= j < |sims| ==> sims[j].status != "Booted") ==>
      PickDevice(sims) == Some((sims[0].uuid, sims[0].status))
  {
    if |sims| > 0 {
      SortByHead(sims, BootRank);
      var k := FirstMin(sims, BootRank);
      forall i | 0 <= i < |sims| && sims[i].status == "Booted"
                 && (forall j :: 0 <= j < i ==> sims[j].status != "Booted")
        ensures k == i
      {
        assert BootRank(sims[k]) <= BootRank(sims[i]) == 0;
      }
    }
  }
}
