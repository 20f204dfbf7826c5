/** What every component shares: an absent value, a refusal, and a flag counted as a number. */
module Maybe {

  datatype Option<+T> = None | Some(value: T)

  datatype Result<+T, +E> = Ok(value: T) | Err(error: E)

  function OrEmpty(s: Option<string>): string {
    if s.Some? then s.value else ""
  }

  function One(b: bool): nat {
    if b then 1 else 0
  }
}
