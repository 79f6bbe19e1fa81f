/**
 The key-value backend, reduced to what the accessors use: a namespace of
 sets of strings (SADD, SMEMBERS) and a separate namespace of strings
 (GET, SET). In the real backend a key holds one value of one type, and SET
 replaces a set stored at its key; the key scheme gives sets and strings
 distinct keys only for colon-free names (Keys.VersionKeyNotSetKey). In this
 model nothing is ever deleted.
 */
module KeyValue {

  /** One snapshot of the backend's data. */
  datatype Db = Db(sets: map<string, set<string>>, strs: map<string, string>)
  {
    /** SMEMBERS: the members of the set at `key`; a missing key is an empty set. */
    function Members(key: string): set<string> {
      if key in sets then sets[key] else {}
    }

    /** GET, with its error discarded: a missing key reads as "". */
    function Value(key: string): string {
      if key in strs then strs[key] else ""
    }

    /** The data after SADD `key` `member`. */
    function WithMember(key: string, member: string): (r: Db)
      ensures r.Members(key) == Members(key) + {member}
      ensures forall k :: k != key ==> r.Members(k) == Members(k)
      ensures r.strs == strs
    {
      Db(sets[key := Members(key) + {member}], strs)
    }

    /** The data after SET `key` `value`. */
    function WithValue(key: string, value: string): (r: Db)
      ensures r.Value(key) == value
      ensures forall k :: k != key ==> r.Value(k) == Value(k)
      ensures r.sets == sets
    {
      Db(sets, strs[key := value])
    }
  }

  /** A backend holding no data. */
  const Empty: Db := Db(map[], map[])

  /** SADD of a member already present changes nothing. */
  lemma WithMemberPresent(db: Db, key: string, member: string)
    requires member in db.Members(key)
    ensures db.WithMember(key, member).Members(key) == db.Members(key)
    ensures db.WithMember(key, member).WithMember(key, member) == db.WithMember(key, member)
  {
  }

  /**
   The in-memory backend the accessors talk to. Each method is one backend
   command; the fields are the two namespaces.
   */
  class Store {
    var sets: map<string, set<string>>
    var strs: map<string, string>

    /** The data this store holds. */
    function State(): Db
      reads this
    {
      Db(sets, strs)
    }

    constructor ()
      ensures State() == Empty
    {
      sets := map[];
      strs := map[];
    }

    /** SADD `key` `member`. */
    method SAdd(key: string, member: string)
      modifies this
      ensures State() == old(State()).WithMember(key, member)
    {
      sets := sets[key := State().Members(key) + {member}];
    }

    /** SET `key` `value`. */
    method Set(key: string, value: string)
      modifies this
      ensures State() == old(State()).WithValue(key, value)
    {
      strs := strs[key := value];
    }

    /** GET `key`: the stored string, or "" when there is none. */
    method Get(key: string) returns (value: string)
      ensures key in strs ==> value == strs[key]
      ensures key !in strs ==> value == ""
    {
      value := if key in strs then strs[key] else "";
    }

    /**
     SMEMBERS `key`: the members of the set, as a list without repetitions
     in an order the caller may not rely on.
     */
    method SMembers(key: string) returns (members: seq<string>)
      ensures forall m :: m in members <==> m in State().Members(key)
      ensures forall i, j :: 0 <= i < j < |members| ==> members[i] != members[j]
    {
      members := [];
      var rest := State().Members(key);
      while rest != {}
        invariant rest <= State().Members(key)
        invariant forall m :: m in members <==> m in State().Members(key) - rest
        invariant forall i, j :: 0 <= i < j < |members| ==> members[i] != members[j]
        decreases rest
      {
        var m :| m in rest;
        assert m !in members;
        forall i | 0 <= i < |members| ensures (members + [m])[i] != m {
          assert members[i] in members;
        }
        members := members + [m];
        rest := rest - {m};
      }
    }
  }
}
