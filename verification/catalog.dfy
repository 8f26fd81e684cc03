/**
 * Queries over a hero catalog: enumerate, look up by id, filter by role and
 * list the distinct roles in sorted order. Each query takes the catalog as a
 * parameter; `AllHeroes` hands out the shipped table.
 */
module Catalog {
  import opened Wrappers
  import opened Heroes
  import opened StringOrder
  import HeroTable

  /** No two records share an id. */
  predicate DistinctIds(c: seq<Hero>)
  {
    forall i, j :: 0 <= i < j < |c| ==> c[i].id != c[j].id
  }

  /** Every record's core attributes lie in the declared universe [0, 10]. */
  predicate AllInUniverse(c: seq<Hero>)
  {
    forall k :: 0 <= k < |c| ==> InUniverse(ProfileOf(c[k]))
  }

  /** The set of roles that occur in a catalog. */
  function RolesOf(c: seq<Hero>): set<string>
  {
    set k | 0 <= k < |c| :: c[k].role
  }

  /**
   * `a` occurs in `b` in the same order, possibly with gaps. Matching the
   * head of `a` against the first equal element of `b` is always safe.
   */
  predicate IsSubsequence<T(==)>(a: seq<T>, b: seq<T>)
    decreases |b|
  {
    |a| == 0 || (|b| > 0 && (if a[0] == b[0] then IsSubsequence(a[1..], b[1..]) else IsSubsequence(a, b[1..])))
  }

  /** The shipped table has thirty records with pairwise distinct ids. */
  lemma TableIdsDistinct()
    ensures |HeroTable.Table| == 30
    ensures DistinctIds(HeroTable.Table)
  {
    TableIdsPairwise();
  }

  lemma TableIdsPairwise()
    ensures forall i, j :: 0 <= i < j < |HeroTable.Table| ==> HeroTable.Table[i].id != HeroTable.Table[j].id
  {
  }

  /** Every record of the shipped table lies in the declared input universe. */
  lemma TableInUniverse()
    ensures AllInUniverse(HeroTable.Table)
  {
  }

  /** `get_all_heroes`: the shipped table, which keeps the data invariants. */
  function AllHeroes(): (r: seq<Hero>)
    ensures |r| == 30
    ensures DistinctIds(r)
    ensures AllInUniverse(r)
  {
    TableIdsDistinct();
    TableInUniverse();
    HeroTable.Table
  }

  /** `get_hero_by_id`: the first record whose id equals `id`, or None. */
  function HeroById(c: seq<Hero>, id: string): (r: Option<Hero>)
    ensures r.None? <==> forall k :: 0 <= k < |c| ==> c[k].id != id
    ensures r.Some? ==> exists k :: 0 <= k < |c| && c[k] == r.value && c[k].id == id
                          && forall j :: 0 <= j < k ==> c[j].id != id
  {
    if |c| == 0 then None
    else if c[0].id == id then Some(c[0])
    else
      var r := HeroById(c[1..], id);
      assert r.Some? ==> exists k :: 0 <= k < |c| && c[k] == r.value && c[k].id == id
                           && forall j :: 0 <= j < k ==> c[j].id != id by {
        if r.Some? {
          var k :| 0 <= k < |c[1..]| && c[1..][k] == r.value && c[1..][k].id == id
                   && forall j :: 0 <= j < k ==> c[1..][j].id != id;
          assert c[k + 1] == r.value;
          assert forall j :: 0 <= j < k + 1 ==> c[j].id != id by {
            forall j | 0 <= j < k + 1 ensures c[j].id != id {
              if j > 0 {
                assert c[j] == c[1..][j - 1];
              }
            }
          }
        }
      }
      r
  }

  /** With distinct ids, looking up a present id returns exactly that record. */
  lemma {:induction false} LookupDistinct(c: seq<Hero>, k: int)
    requires DistinctIds(c)
    requires 0 <= k < |c|
    ensures HeroById(c, c[k].id) == Some(c[k])
  {
    var r := HeroById(c, c[k].id);
    var i :| 0 <= i < |c| && c[i] == r.value && c[i].id == c[k].id
             && forall j :: 0 <= j < i ==> c[j].id != c[k].id;
  }

  /** In the shipped table, every id resolves to the one record carrying it. */
  lemma TableLookup(k: int)
    requires 0 <= k < |HeroTable.Table|
    ensures HeroById(AllHeroes(), HeroTable.Table[k].id) == Some(HeroTable.Table[k])
  {
    TableIdsDistinct();
    LookupDistinct(HeroTable.Table, k);
  }

  /** `get_heroes_by_role`: the records of role `role`, in catalog order. */
  function HeroesByRole(c: seq<Hero>, role: string): (r: seq<Hero>)
    ensures forall h :: h in r ==> h.role == role
    ensures forall h :: multiset(r)[h] == if h.role == role then multiset(c)[h] else 0
    ensures IsSubsequence(r, c)
  {
    if |c| == 0 then []
    else
      var rest := HeroesByRole(c[1..], role);
      assert c == [c[0]] + c[1..];
      if c[0].role == role then
        var r := [c[0]] + rest;
        assert r[1..] == rest;
        r
      else
        assert |rest| > 0 ==> rest[0] != c[0] by {
          if |rest| > 0 {
            assert rest[0] in rest;
          }
        }
        rest
  }

  /** Inserts `x` into a strictly increasing sequence, keeping it so. */
  function InsertRole(s: seq<string>, x: string): (r: seq<string>)
    requires StrictlyIncreasing(s)
    ensures StrictlyIncreasing(r)
    ensures Elements(r) == Elements(s) + {x}
  {
    if |s| == 0 then
      assert [x][0] == x;
      [x]
    else if s[0] == x then s
    else if Less(x, s[0]) then
      var r := [x] + s;
      assert forall j :: 0 <= j < |s| ==> Less(x, s[j]) by {
        forall j | 0 <= j < |s| ensures Less(x, s[j]) {
          if j > 0 {
            Transitive(x, s[0], s[j]);
          }
        }
      }
      assert Elements(r) == Elements(s) + {x} by {
        assert r[0] == x;
        forall y | y in Elements(s) ensures y in Elements(r) {
          var k :| 0 <= k < |s| && s[k] == y;
          assert r[k + 1] == y;
        }
        forall y | y in Elements(r) ensures y in Elements(s) + {x} {
          var k :| 0 <= k < |r| && r[k] == y;
          if k > 0 {
            assert s[k - 1] == y;
          }
        }
      }
      r
    else
      Total(x, s[0]);
      var tail := InsertRole(s[1..], x);
      assert Elements(s) == {s[0]} + Elements(s[1..]) by {
        forall y | y in Elements(s) ensures y in {s[0]} + Elements(s[1..]) {
          var k :| 0 <= k < |s| && s[k] == y;
          if k > 0 {
            assert s[1..][k - 1] == y;
          }
        }
      }
      var r := [s[0]] + tail;
      assert forall j :: 0 <= j < |tail| ==> Less(s[0], tail[j]) by {
        forall j | 0 <= j < |tail| ensures Less(s[0], tail[j]) {
          assert tail[j] in Elements(tail);
          if tail[j] != x {
            var k :| 0 <= k < |s[1..]| && s[1..][k] == tail[j];
            assert s[k + 1] == tail[j];
          }
        }
      }
      assert Elements(r) == {s[0]} + Elements(tail) by {
        assert r[0] == s[0];
        forall y | y in Elements(r) ensures y in {s[0]} + Elements(tail) {
          var k :| 0 <= k < |r| && r[k] == y;
          if k > 0 {
            assert tail[k - 1] == y;
          }
        }
        forall y | y in Elements(tail) ensures y in Elements(r) {
          var k :| 0 <= k < |tail| && tail[k] == y;
          assert r[k + 1] == y;
        }
      }
      r
  }

  /** `get_all_roles`: the distinct roles of the catalog, sorted ascending. */
  function AllRoles(c: seq<Hero>): (r: seq<string>)
    ensures StrictlyIncreasing(r)
    ensures Elements(r) == RolesOf(c)
  {
    if |c| == 0 then []
    else
      var prefix := c[..|c| - 1];
      assert RolesOf(c) == RolesOf(prefix) + {c[|c| - 1].role} by {
        forall y | y in RolesOf(c) ensures y in RolesOf(prefix) + {c[|c| - 1].role} {
          var k :| 0 <= k < |c| && c[k].role == y;
          if k < |c| - 1 {
            assert prefix[k].role == y;
          }
        }
      }
      InsertRole(AllRoles(prefix), c[|c| - 1].role)
  }

  /** The roles of the shipped table, as `get_all_roles` lists them. */
  const ShippedRoles: seq<string> := ["Assassin", "Fighter", "Mage", "Marksman", "Support", "Tank"]

  lemma ShippedRolesIncreasing()
    ensures StrictlyIncreasing(ShippedRoles)
  {
    assert Less("Assassin", "Fighter");
    assert Less("Fighter", "Mage");
    assert Less("Mage", "Marksman") by {
      assert Less("ge", "rksman");
    }
    assert Less("Marksman", "Support");
    assert Less("Support", "Tank");
    forall i, j | 0 <= i < j < |ShippedRoles| ensures Less(ShippedRoles[i], ShippedRoles[j]) {
      if j > i + 1 {
        TransitiveChain(i, j);
      }
    }
  }

  lemma {:induction false} TransitiveChain(i: int, j: int)
    requires 0 <= i < j < |ShippedRoles|
    requires forall k :: 0 <= k < |ShippedRoles| - 1 ==> Less(ShippedRoles[k], ShippedRoles[k + 1])
    ensures Less(ShippedRoles[i], ShippedRoles[j])
    decreases j - i
  {
    if j > i + 1 {
      TransitiveChain(i, j - 1);
      Transitive(ShippedRoles[i], ShippedRoles[j - 1], ShippedRoles[j]);
    }
  }

  lemma TableRolesListed()
    ensures forall k :: 0 <= k < |HeroTable.Table| ==> HeroTable.Table[k].role in ShippedRoles
  {
  }

  /** Where each shipped role first occurs in the table. */
  const RoleWitnesses: seq<int> := [10, 5, 15, 20, 25, 0]

  lemma TableRolesAttained()
    ensures |RoleWitnesses| == |ShippedRoles|
    ensures forall i :: 0 <= i < |ShippedRoles| ==>
      0 <= RoleWitnesses[i] < |HeroTable.Table| && HeroTable.Table[RoleWitnesses[i]].role == ShippedRoles[i]
  {
  }

  /**
   * The roles of a catalog are exactly `s` when every role is in `s` and every
   * element of `s` is the role of the record `w` points to.
   */
  lemma RolesOfExactly(c: seq<Hero>, s: seq<string>, w: seq<int>)
    requires forall k :: 0 <= k < |c| ==> c[k].role in s
    requires |w| == |s|
    requires forall i :: 0 <= i < |s| ==> 0 <= w[i] < |c| && c[w[i]].role == s[i]
    ensures RolesOf(c) == Elements(s)
  {
    forall x | x in Elements(s) ensures x in RolesOf(c) {
      var i :| 0 <= i < |s| && s[i] == x;
      assert c[w[i]].role == x;
    }
  }

  lemma TableRoleSet()
    ensures RolesOf(HeroTable.Table) == Elements(ShippedRoles)
  {
    TableRolesListed();
    TableRolesAttained();
    RolesOfExactly(HeroTable.Table, ShippedRoles, RoleWitnesses);
  }

  /** On the shipped table `get_all_roles` yields the six roles in alphabetical order. */
  lemma TableRoles()
    ensures AllRoles(AllHeroes()) == ShippedRoles
  {
    ShippedRolesIncreasing();
    TableRoleSet();
    IncreasingUnique(AllRoles(HeroTable.Table), ShippedRoles);
  }
}
