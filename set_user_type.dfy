/** The role codes of the `user_type` table and the middlewares that stamp one onto `req.body`. */
module SetUserType {
  import opened Common
  import opened Http

  datatype Role = Admin | Professor | Student | Camera

  /** The `id_user_type` code of each role. */
  function Code(role: Role): (c: int)
    ensures 1 <= c <= 4
  {
    match role
    case Admin => 1
    case Professor => 2
    case Student => 3
    case Camera => 4
  }

  /** The role a code stands for, if any. */
  function RoleOf(c: int): (r: Option<Role>)
    ensures r.Some? <==> 1 <= c <= 4
  {
    if c == 1 then Some(Admin)
    else if c == 2 then Some(Professor)
    else if c == 3 then Some(Student)
    else if c == 4 then Some(Camera)
    else None
  }

  /** Codes and roles are in one-to-one correspondence. */
  lemma CodeRoundTrip(role: Role, c: int)
    ensures RoleOf(Code(role)) == Some(role)
    ensures RoleOf(c) == Some(role) ==> Code(role) == c
  {
  }

  /** Overwrites `req.body.idUserType` with a role's code and calls `next()`. */
  method Stamp(req: Request, role: Role) returns (o: Outcome<()>)
    modifies req`body
    ensures o == Next
    ensures req.body == old(req.body).(idUserType := Some(Code(role)))
  {
    req.body := req.body.(idUserType := Some(Code(role)));
    o := Next;
  }

  /** The `admin` setter: the body's `idUserType` becomes 1, nothing else changes. */
  method SetAdmin(req: Request) returns (o: Outcome<()>)
    modifies req`body
    ensures o == Next
    ensures req.body == old(req.body).(idUserType := Some(1))
  {
    o := Stamp(req, Admin);
  }

  /** The `professor` setter: the body's `idUserType` becomes 2, nothing else changes. */
  method SetProfessor(req: Request) returns (o: Outcome<()>)
    modifies req`body
    ensures o == Next
    ensures req.body == old(req.body).(idUserType := Some(2))
  {
    o := Stamp(req, Professor);
  }

  /** The `student` setter: the body's `idUserType` becomes 3, nothing else changes. */
  method SetStudent(req: Request) returns (o: Outcome<()>)
    modifies req`body
    ensures o == Next
    ensures req.body == old(req.body).(idUserType := Some(3))
  {
    o := Stamp(req, Student);
  }

  /** The `camera` setter: the body's `idUserType` becomes 4, nothing else changes. */
  method SetCamera(req: Request) returns (o: Outcome<()>)
    modifies req`body
    ensures o == Next
    ensures req.body == old(req.body).(idUserType := Some(4))
  {
    o := Stamp(req, Camera);
  }
}
