/** Credentials that live in files and are re-read after a rejection. */
module Secret {
  import opened Basics

  /** One read of the secret file. */
  datatype FileRead = Unreadable | Content(body: string)

  predicate IsLineEnd(c: char) {
    c == '\r' || c == '\n'
  }

  /** Strip trailing line ends only; a space may belong to the password. */
  function TrimSecret(body: string): (pw: string)
    ensures pw <= body
    ensures pw != "" ==> !IsLineEnd(pw[|pw| - 1])
    ensures forall i :: |pw| <= i < |body| ==> IsLineEnd(body[i])
  {
    if body != "" && IsLineEnd(body[|body| - 1]) then TrimSecret(body[..|body| - 1]) else body
  }

  lemma {:induction false} TrimIsUnique(body: string, pw: string)
    requires pw <= body
    requires pw != "" ==> !IsLineEnd(pw[|pw| - 1])
    requires forall i :: |pw| <= i < |body| ==> IsLineEnd(body[i])
    ensures pw == TrimSecret(body)
  {
    var trimmed := TrimSecret(body);
    assert pw != "" ==> pw[|pw| - 1] == body[|pw| - 1];
    assert trimmed != "" ==> trimmed[|trimmed| - 1] == body[|trimmed| - 1];
    assert |pw| == |trimmed|;
  }

  datatype ReadError = NotRead | EmptySecret

  function Usable(file: FileRead): Result<string, ReadError> {
    match file
    case Unreadable => Err(NotRead)
    case Content(body) => if TrimSecret(body) == "" then Err(EmptySecret) else Ok(TrimSecret(body))
  }

  /** `pw` is what a readable file holds besides the carriage returns and line feeds at its end. */
  ghost predicate Holds(file: FileRead, pw: string) {
    && file.Content? && pw <= file.body && pw != ""
    && pw[|pw| - 1] != '\r' && pw[|pw| - 1] != '\n'
    && forall i :: |pw| <= i < |file.body| ==> file.body[i] == '\r' || file.body[i] == '\n'
  }

  /** A file is usable exactly when it can be read and holds more than line ends, and then as what it holds. */
  lemma {:induction false} UsableMeans(file: FileRead)
    ensures forall pw :: Usable(file) == Ok(pw) <==> Holds(file, pw)
    ensures Usable(file).Ok? <==> file.Content? && exists c :: c in file.body && c != '\r' && c != '\n'
  {
    if file.Content? {
      var body, trimmed := file.body, TrimSecret(file.body);
      forall pw | Holds(file, pw)
        ensures Usable(file) == Ok(pw)
      {
        TrimIsUnique(body, pw);
      }
      if trimmed == "" {
        assert forall i :: 0 <= i < |body| ==> IsLineEnd(body[i]);
      } else {
        assert trimmed[|trimmed| - 1] == body[|trimmed| - 1];
        assert body[|trimmed| - 1] in body;
      }
    }
  }

  /** How an attempt to re-read a credential ended. */
  datatype Reload = Rotated | Unchanged | ReloadFailed

  /** The password in memory after a reload. Static credentials have no file. */
  function Reloading(password: string, file: Option<FileRead>): (string, Reload) {
    match file
    case None => (password, Unchanged)
    case Some(f) =>
      match Usable(f)
      case Err(_) => (password, ReloadFailed)
      case Ok(pw) => if pw == password then (password, Unchanged) else (pw, Rotated)
  }

  /** A reload reports a rotation exactly when it changed the password, and then to a non-empty one. */
  lemma {:induction false} ReloadReportsChange(password: string, file: Option<FileRead>)
    ensures var (pw, outcome) := Reloading(password, file);
            && (outcome == Rotated <==> pw != password)
            && (outcome == Rotated ==> pw != "" && file.Some? && Usable(file.value) == Ok(pw))
            && (outcome == ReloadFailed <==> file.Some? && Usable(file.value).Err?)
  {
  }

  /** A reload leaves in memory what the file holds, and what was there if it holds nothing. */
  lemma {:induction false} ReloadTakesTheFile(password: string, file: Option<FileRead>, pw: string)
    ensures file.Some? && Holds(file.value, pw) ==>
      Reloading(password, file) == (pw, if pw == password then Unchanged else Rotated)
    ensures (file.Some? ==> forall held :: !Holds(file.value, held)) ==>
      Reloading(password, file) == (password, if file.None? then Unchanged else ReloadFailed)
  {
    if file.Some? {
      UsableMeans(file.value);
    }
  }

  /** `file(n)` is what the n-th read of the secret file returns: any history of the file. */
  class Credential {
    const fileBacked: bool
    const file: nat -> FileRead
    var readCount: nat
    var password: string

    constructor Static(password: string)
      ensures !fileBacked && this.password == password
    {
      this.fileBacked := false;
      this.file := n => Unreadable;
      this.readCount := 0;
      this.password := password;
    }

    /** Reads the file at once, so that startup fails without it; `first` is what that read returned. */
    static method Open(file: nat -> FileRead) returns (r: Result<Credential, ReadError>)
      ensures r.Ok? <==> Usable(file(0)).Ok?
      ensures r.Ok? ==> fresh(r.value) && r.value.fileBacked && r.value.file == file
                        && r.value.readCount == 1 && Ok(r.value.password) == Usable(file(0))
      ensures r.Err? ==> Err(r.error) == Usable(file(0))
    {
      var pw := Usable(file(0));
      if pw.Err? {
        return Err(pw.error);
      }
      var c := new Credential.FromFile(file, pw.value);
      return Ok(c);
    }

    constructor FromFile(file: nat -> FileRead, password: string)
      ensures fileBacked && this.file == file && readCount == 1 && this.password == password
    {
      this.fileBacked := true;
      this.file := file;
      this.readCount := 1;
      this.password := password;
    }

    method Reload() returns (outcome: Reload)
      modifies this
      ensures (password, outcome)
              == Reloading(old(password), if fileBacked then Some(file(old(readCount))) else None)
      ensures readCount == old(readCount) + (if fileBacked then 1 else 0)
    {
      if !fileBacked {
        return Unchanged;
      }
      var body := file(readCount);
      readCount := readCount + 1;
      match Usable(body) {
        case Err(_) => return ReloadFailed;
        case Ok(pw) =>
          if pw == password {
            return Unchanged;
          }
          password := pw;
          return Rotated;
      }
    }
  }
}
