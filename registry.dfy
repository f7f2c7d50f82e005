/**
 * ClientConnectionManager: the coordinator's table of logged-in
 * participants, keyed by the connection they arrived on.
 */
module Registry {
  import opened Wrappers
  import opened Model

  /** An opaque connection identity (Netty's ChannelId). */
  type ChannelId = nat

  /** "Some registered student has exactly this id", false for a null or empty id. */
  predicate IdOnline(reg: map<ChannelId, Student>, studentId: Option<string>) {
    && studentId.Some? && studentId.value != ""
    && exists c :: c in reg && reg[c].id == studentId
  }

  /** What addStudent stores: the student with the connection's remote address as ip, marked online. */
  function Registered(s: Student, remote: string): (r: Student)
    ensures r.id == s.id && r.name == s.name
    ensures r.ip == Some(remote) && r.online
  {
    s.(ip := Some(remote), online := true)
  }

  /** The connections holding an equal student. */
  ghost function Holders(reg: map<ChannelId, Student>, s: Student): set<ChannelId> {
    set d | d in reg && reg[d] == s
  }

  /** The registered students as a bag: one per connection, duplicates kept. */
  ghost function Values(reg: map<ChannelId, Student>): (r: multiset<Student>)
    ensures |r| == |reg|
    ensures forall c :: c in reg ==> reg[c] in r
    ensures forall s :: s in r ==> exists c :: c in reg && reg[c] == s
    ensures forall s :: r[s] == |Holders(reg, s)|
    decreases |reg|
  {
    if reg == map[] then multiset{}
    else
      var c :| c in reg;
      var rest := Values(reg - {c});
      ValuesAdd(reg, c, rest);
      rest + multiset{reg[c]}
  }

  /** Adding one entry's student to the bag of the other entries gives the bag of all of them. */
  lemma ValuesAdd(reg: map<ChannelId, Student>, c: ChannelId, rest: multiset<Student>)
    requires c in reg
    requires |rest| == |reg - {c}|
    requires forall d :: d in reg - {c} ==> reg[d] in rest
    requires forall s :: s in rest ==> exists d :: d in reg - {c} && reg[d] == s
    requires forall s :: rest[s] == |Holders(reg - {c}, s)|
    ensures var r := rest + multiset{reg[c]};
      && |r| == |reg|
      && (forall d :: d in reg ==> reg[d] in r)
      && (forall s :: s in r ==> exists d :: d in reg && reg[d] == s)
      && (forall s :: r[s] == |Holders(reg, s)|)
  {
    forall s ensures (rest + multiset{reg[c]})[s] == |Holders(reg, s)| {
      HoldersAdd(reg, c, s);
    }
    assert |reg - {c}| == |reg| - 1;
    var r := rest + multiset{reg[c]};
    forall s | s in r ensures exists d :: d in reg && reg[d] == s {
      if s != reg[c] {
        assert s in rest;
      }
    }
  }

  /** Putting back one entry adds its channel to the holders of its student only. */
  lemma HoldersAdd(reg: map<ChannelId, Student>, c: ChannelId, s: Student)
    requires c in reg
    ensures |Holders(reg, s)| == |Holders(reg - {c}, s)| + (if reg[c] == s then 1 else 0)
  {
    var h := Holders(reg - {c}, s);
    assert c !in h;
    if reg[c] == s {
      assert Holders(reg, s) == h + {c};
    } else {
      assert Holders(reg, s) == h;
    }
  }

  class ClientConnectionManager {
    var onlineStudents: map<ChannelId, Student>

    constructor()
      ensures onlineStudents == map[]
    {
      onlineStudents := map[];
    }

    /** addStudent: no duplicate check of its own; re-adding a connection replaces its entry. */
    method AddStudent(ch: ChannelId, remote: string, student: Student)
      modifies this
      ensures onlineStudents == old(onlineStudents)[ch := Registered(student, remote)]
    {
      onlineStudents := onlineStudents[ch := Registered(student, remote)];
    }

    /** removeStudent: the removed entry, untouched (still marked online), or null. */
    method RemoveStudent(ch: ChannelId) returns (removed: Option<Student>)
      modifies this
      ensures removed == (if ch in old(onlineStudents) then Some(old(onlineStudents)[ch]) else None)
      ensures onlineStudents == old(onlineStudents) - {ch}
    {
      if ch in onlineStudents {
        removed := Some(onlineStudents[ch]);
      } else {
        removed := None;
      }
      onlineStudents := onlineStudents - {ch};
    }

    /** isStudentIdOnline: a scan of the registered students. */
    method IsStudentIdOnline(studentId: Option<string>) returns (b: bool)
      ensures b <==> IdOnline(onlineStudents, studentId)
    {
      if studentId.None? || studentId.value == "" {
        return false;
      }
      var remaining := onlineStudents.Keys;
      while remaining != {}
        invariant remaining <= onlineStudents.Keys
        invariant forall c :: c in onlineStudents && c !in remaining ==> onlineStudents[c].id != studentId
        decreases remaining
      {
        var c :| c in remaining;
        if onlineStudents[c].id == studentId {
          return true;
        }
        remaining := remaining - {c};
      }
      return false;
    }

    /** getOnlineStudents: a live view of the values, one per registered connection. */
    ghost function OnlineStudents(): (r: multiset<Student>)
      reads this
      ensures |r| == |onlineStudents|
    {
      Values(onlineStudents)
    }

    /** getStudent: the entry for the connection, or null. */
    function GetStudent(ch: ChannelId): (r: Option<Student>)
      reads this
      ensures r.Some? <==> ch in onlineStudents
      ensures r.Some? ==> r.value == onlineStudents[ch]
    {
      if ch in onlineStudents then Some(onlineStudents[ch]) else None
    }
  }

  /** Removing twice is removing once. */
  lemma RemoveIdempotent(reg: map<ChannelId, Student>, ch: ChannelId)
    ensures (reg - {ch}) - {ch} == reg - {ch}
    ensures ch !in reg - {ch}
  {
  }

  /** After an add, the student's id is online (unless empty), and every other entry is unchanged. */
  lemma AddMakesOnline(reg: map<ChannelId, Student>, ch: ChannelId, remote: string, s: Student)
    requires s.id.Some? && s.id.value != ""
    ensures IdOnline(reg[ch := Registered(s, remote)], s.id)
    ensures forall c :: c in reg && c != ch ==> reg[ch := Registered(s, remote)][c] == reg[c]
  {
    assert reg[ch := Registered(s, remote)][ch].id == s.id;
  }

  /** The empty id is never online, however many students are registered with it. */
  lemma EmptyIdNeverOnline(reg: map<ChannelId, Student>)
    ensures !IdOnline(reg, Some(""))
    ensures !IdOnline(reg, None)
  {
  }
}
