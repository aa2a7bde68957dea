/** The smallest element of a set. */
module Sets {
  ghost function Least(ids: set<nat>): (r: nat)
    requires ids != {}
    ensures r in ids && forall other | other in ids :: r <= other
  {
    LeastExists(ids);
    var id :| id in ids && forall other | other in ids :: id <= other;
    id
  }

  lemma {:induction false} LeastExists(ids: set<nat>)
    requires ids != {}
    ensures exists id :: id in ids && forall other | other in ids :: id <= other
    decreases |ids|
  {
    var one :| one in ids;
    var rest := ids - {one};
    if rest == {} {
      assert ids == {one};
    } else {
      LeastExists(rest);
      var id :| id in rest && forall other | other in rest :: id <= other;
      var least := if one < id then one else id;
      assert forall other | other in ids :: other == one || other in rest;
      assert least in ids && forall other | other in ids :: least <= other;
    }
  }

  method Smallest(ids: set<nat>) returns (id: nat)
    requires ids != {}
    ensures id in ids && forall other | other in ids :: id <= other
  {
    id :| id in ids;
    var rest := ids;
    while rest != {}
      invariant rest <= ids && id in ids && forall other | other in ids && other !in rest :: id <= other
      decreases |rest|
    {
      var one :| one in rest;
      if one < id {
        id := one;
      }
      rest := rest - {one};
    }
  }
}
