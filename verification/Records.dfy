/** Rows that both halves of the database use: hash sightings and fetch jobs. */
module Records {
  import opened Orders

  datatype Seen = Seen(first: int, last: int)

  datatype JobState = Pending | Running | Succeeded | RetryWait | Dormant

  datatype Job = Job(state: JobState, attempts: nat, dueAt: int, generation: nat, updatedAt: int)

  /** One observation merged into the hash table: the earliest first and the latest last sighting. */
  function Upserted(t: map<Name, Seen>, h: Name, at: int): map<Name, Seen> {
    if h !in t then t[h := Seen(at, at)]
    else t[h := Seen(if at < t[h].first then at else t[h].first, if at > t[h].last then at else t[h].last)]
  }
}
