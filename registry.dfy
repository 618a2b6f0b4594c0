/** The uniqueness keys of the two registries: employees are keyed on NIK and
    on email, cameras on IP address. */
module Registry {
  import opened Schema

  /** `findFirst` on `karyawan` with `OR: [{ nik }, { email }]` finds a row. */
  predicate NikOrEmailTaken(ks: seq<Employee>, nik: string, email: string)
  {
    exists i | 0 <= i < |ks| :: ks[i].nik == nik || ks[i].email == email
  }

  /** NIKs are pairwise distinct and emails are pairwise distinct. */
  ghost predicate EmployeeKeysDistinct(ks: seq<Employee>)
  {
    forall i, j :: 0 <= i < j < |ks| ==> ks[i].nik != ks[j].nik && ks[i].email != ks[j].email
  }

  /** `findFirst` on `cCTV` with `{ ip }` finds a row. */
  predicate IpTaken(cs: seq<Camera>, ip: string)
  {
    exists i | 0 <= i < |cs| :: cs[i].ip == ip
  }

  /** Camera IP addresses are pairwise distinct. */
  ghost predicate IpsDistinct(cs: seq<Camera>)
  {
    forall i, j :: 0 <= i < j < |cs| ==> cs[i].ip != cs[j].ip
  }

  /** Appending an employee keeps both keys distinct exactly when neither
      its NIK nor its email is taken. */
  lemma AppendEmployeeKeepsKeys(ks: seq<Employee>, e: Employee)
    requires EmployeeKeysDistinct(ks)
    ensures EmployeeKeysDistinct(ks + [e]) <==> !NikOrEmailTaken(ks, e.nik, e.email)
  {
    var ks' := ks + [e];
    if NikOrEmailTaken(ks, e.nik, e.email) {
      var i :| 0 <= i < |ks| && (ks[i].nik == e.nik || ks[i].email == e.email);
      assert ks'[i] == ks[i] && ks'[|ks|] == e;
    }
  }

  /** Appending a camera keeps IPs distinct exactly when its IP is not
      taken. */
  lemma AppendCameraKeepsIps(cs: seq<Camera>, c: Camera)
    requires IpsDistinct(cs)
    ensures IpsDistinct(cs + [c]) <==> !IpTaken(cs, c.ip)
  {
    var cs' := cs + [c];
    if IpTaken(cs, c.ip) {
      var i :| 0 <= i < |cs| && cs[i].ip == c.ip;
      assert cs'[i] == cs[i] && cs'[|cs|] == c;
    }
  }
}
