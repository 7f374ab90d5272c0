/** The tables behind the JPA repositories and the derived queries the
    services call on them. A table is a sequence of rows in insertion order;
    `findBy...` is the first matching row, `findAllBy...` every matching row.
    The database promises no order for these queries; the model fixes table
    order, and the results stated as equalities of lists rely on it. */
module Repositorios {
  import opened Tiempo
  import opened Secuencias
  import opened Entidades

  // The where-clauses of the derived queries.

  function UsuarioConId(id: nat): Usuario -> bool { (u: Usuario) => u.id == id }
  function UsuarioConEmail(email: string): Usuario -> bool { (u: Usuario) => u.email == email }
  function MedicoConId(id: nat): Medico -> bool { (m: Medico) => m.id == id }
  function EspecialidadConId(id: nat): Especialidad -> bool { (e: Especialidad) => e.id == id }
  function HorarioConId(id: nat): Horario -> bool { (h: Horario) => h.id == id }
  function HorarioDelMedico(medicoId: nat): Horario -> bool { (h: Horario) => h.medicoId == medicoId }
  function HorarioSinId(id: nat): Horario -> bool { (h: Horario) => h.id != id }
  function MedicoSinId(id: nat): Medico -> bool { (m: Medico) => m.id != id }
  function HorarioDeOtroMedico(medicoId: nat): Horario -> bool { (h: Horario) => h.medicoId != medicoId }
  function CitaDelMedico(medicoId: nat): Cita -> bool { (c: Cita) => c.medicoId == medicoId }
  function HorarioDelMedicoEnDia(medicoId: nat, dia: DiaSemana): Horario -> bool {
    (h: Horario) => h.medicoId == medicoId && h.dia == dia
  }
  /** `...FechaHoraInicioBetween(fecha.atStartOfDay(), fecha.atTime(LocalTime.MAX))`:
      the bounds are inclusive, so this is "starts on that date"
      (`EntreInicioYFinDelDia`). */
  function CitaDelMedicoEnFecha(medicoId: nat, f: Fecha): Cita -> bool {
    (c: Cita) => c.medicoId == medicoId && FechaDe(c.inicio) == f
  }
  function CitaDelPacienteEnFecha(pacienteId: nat, f: Fecha): Cita -> bool {
    (c: Cita) => c.pacienteId == pacienteId && FechaDe(c.inicio) == f
  }

  /** Between the start of a date and its last minute, both included, lie
      exactly the date-times of that date. */
  lemma EntreInicioYFinDelDia(f: Fecha, t: Instante)
    ensures En(f, Hora(0, 0)) <= t <= En(f, Hora(23, 59)) <==> FechaDe(t) == f
  {
    var d := t - f * MinutosPorDia;
    assert t == f * MinutosPorDia + d;
    if 0 <= d < MinutosPorDia {
      assert FechaDe(t) == f;
    } else if d < 0 {
      assert t < f * MinutosPorDia;
      assert FechaDe(t) * MinutosPorDia <= t;
    } else {
      assert t >= (f + 1) * MinutosPorDia;
      assert t < FechaDe(t) * MinutosPorDia + MinutosPorDia;
    }
  }

  // Queries returning one row (findById, findByEmail).

  function UsuarioPorId(us: seq<Usuario>, id: nat): (r: Option<nat>)
    ensures r.Some? ==> r.value < |us| && us[r.value].id == id
    ensures r.None? <==> forall j :: 0 <= j < |us| ==> us[j].id != id
  {
    Find(us, UsuarioConId(id))
  }

  function UsuarioPorEmail(us: seq<Usuario>, email: string): (r: Option<nat>)
    ensures r.Some? ==> r.value < |us| && us[r.value].email == email
    ensures r.Some? ==> forall j :: 0 <= j < r.value ==> us[j].email != email
    ensures r.None? <==> forall j :: 0 <= j < |us| ==> us[j].email != email
  {
    Find(us, UsuarioConEmail(email))
  }

  function MedicoPorId(ms: seq<Medico>, id: nat): (r: Option<nat>)
    ensures r.Some? ==> r.value < |ms| && ms[r.value].id == id
    ensures r.Some? ==> forall j :: 0 <= j < r.value ==> ms[j].id != id
    ensures r.None? <==> forall j :: 0 <= j < |ms| ==> ms[j].id != id
  {
    Find(ms, MedicoConId(id))
  }

  function EspecialidadPorId(es: seq<Especialidad>, id: nat): (r: Option<nat>)
    ensures r.Some? ==> r.value < |es| && es[r.value].id == id
    ensures r.None? <==> forall j :: 0 <= j < |es| ==> es[j].id != id
  {
    Find(es, EspecialidadConId(id))
  }

  function HorarioPorId(hs: seq<Horario>, id: nat): (r: Option<nat>)
    ensures r.Some? ==> r.value < |hs| && hs[r.value].id == id
    ensures r.None? <==> forall j :: 0 <= j < |hs| ==> hs[j].id != id
  {
    Find(hs, HorarioConId(id))
  }

  // Queries returning a list (findAllBy...).

  /** findAllByMedicoId. */
  function HorariosDeMedico(hs: seq<Horario>, medicoId: nat): (r: seq<Horario>)
    ensures forall i :: 0 <= i < |r| ==> r[i] in hs && r[i].medicoId == medicoId
    ensures forall i :: 0 <= i < |hs| && hs[i].medicoId == medicoId ==> hs[i] in r
  {
    Filter(hs, HorarioDelMedico(medicoId))
  }

  /** The rows findByMedicoIdAndDiaSemana can match. */
  function HorariosDelDia(hs: seq<Horario>, medicoId: nat, dia: DiaSemana): (r: seq<Horario>)
    ensures forall i :: 0 <= i < |r| ==> r[i] in hs && r[i].medicoId == medicoId && r[i].dia == dia
    ensures forall i :: 0 <= i < |hs| && hs[i].medicoId == medicoId && hs[i].dia == dia ==> hs[i] in r
  {
    Filter(hs, HorarioDelMedicoEnDia(medicoId, dia))
  }

  /** findAllByMedicoIdAndFechaHoraInicioBetween over one whole date. */
  function CitasDelMedicoEnFecha(cs: seq<Cita>, medicoId: nat, f: Fecha): (r: seq<Cita>)
    ensures forall i :: 0 <= i < |r| ==> r[i] in cs && r[i].medicoId == medicoId && FechaDe(r[i].inicio) == f
    ensures forall i :: 0 <= i < |cs| && cs[i].medicoId == medicoId && FechaDe(cs[i].inicio) == f ==> cs[i] in r
  {
    Filter(cs, CitaDelMedicoEnFecha(medicoId, f))
  }

  /** findAllByPacienteIdAndFechaHoraInicioBetween over one whole date. */
  function CitasDelPacienteEnFecha(cs: seq<Cita>, pacienteId: nat, f: Fecha): (r: seq<Cita>)
    ensures forall i :: 0 <= i < |r| ==> r[i] in cs && r[i].pacienteId == pacienteId && FechaDe(r[i].inicio) == f
    ensures forall i :: 0 <= i < |cs| && cs[i].pacienteId == pacienteId && FechaDe(cs[i].inicio) == f ==> cs[i] in r
  {
    Filter(cs, CitaDelPacienteEnFecha(pacienteId, f))
  }

  // The database's own guarantees: generated keys, the unique email column
  // and the foreign keys of the doctor table.

  ghost predicate EmailsUnicos(us: seq<Usuario>) {
    forall i, j :: 0 <= i < j < |us| ==> us[i].email != us[j].email
  }

  /** Every doctor row points at an existing account (the usuario_id foreign key). */
  ghost predicate MedicosConUsuario(us: seq<Usuario>, ms: seq<Medico>) {
    forall m :: m in ms ==> UsuarioPorId(us, m.usuarioId).Some?
  }

  /** Appending a doctor row together with its account keeps every doctor
      row pointing at an account. */
  lemma MedicosConUsuarioTrasAlta(us: seq<Usuario>, ms: seq<Medico>, u: Usuario, m: Medico)
    requires MedicosConUsuario(us, ms) && m.usuarioId == u.id
    ensures MedicosConUsuario(us + [u], ms + [m])
  {
    var us' := us + [u];
    forall x | x in ms + [m] ensures UsuarioPorId(us', x.usuarioId).Some? {
      if x in ms {
        assert us'[UsuarioPorId(us, x.usuarioId).value].id == x.usuarioId;
      } else {
        assert us'[|us|].id == x.usuarioId;
      }
    }
  }

  /** What the database keeps between requests: every key is below the next
      generated one, every doctor's account and specialty exist, and no two
      accounts share an email. Each write of the services preserves it (the
      `...ConservaConsistencia` lemmas). */
  ghost predicate Consistente(us: seq<Usuario>, es: seq<Especialidad>, ms: seq<Medico>,
                              hs: seq<Horario>, cs: seq<Cita>, nextId: nat)
  {
    && (forall u :: u in us ==> u.id < nextId)
    && (forall m :: m in ms ==> m.id < nextId)
    && MedicosConUsuario(us, ms)
    && (forall m :: m in ms ==> EspecialidadPorId(es, m.especialidadId).Some?)
    && (forall h :: h in hs ==> h.id < nextId && h.medicoId < nextId)
    && (forall c :: c in cs ==> c.id < nextId && c.medicoId < nextId)
    && EmailsUnicos(us)
  }

  /** The database: one field per repository, and the next generated key. */
  class Store {
    var usuarios: seq<Usuario>
    var roles: set<string>
    var especialidades: seq<Especialidad>
    var medicos: seq<Medico>
    var horarios: seq<Horario>
    var citas: seq<Cita>
    var nextId: nat
  }

  /** Rewriting one account in place, keeping its key and either keeping its
      email or moving to an email nobody holds, keeps the database consistent. */
  lemma ActualizarUsuarioConsistente(us: seq<Usuario>, k: nat, u: Usuario, es: seq<Especialidad>,
                                     ms: seq<Medico>, hs: seq<Horario>, cs: seq<Cita>, nextId: nat)
    requires Consistente(us, es, ms, hs, cs, nextId)
    requires k < |us| && u.id == us[k].id
    requires u.email == us[k].email || UsuarioPorEmail(us, u.email).None?
    ensures Consistente(us[k := u], es, ms, hs, cs, nextId)
  {
    var us' := us[k := u];
    forall m | m in ms ensures UsuarioPorId(us', m.usuarioId).Some? {
      var i := UsuarioPorId(us, m.usuarioId).value;
      assert us'[i].id == m.usuarioId;
    }
  }

  /** Appending an account with the next key and an unused email keeps the
      database consistent. */
  lemma AgregarUsuarioConsistente(us: seq<Usuario>, u: Usuario, es: seq<Especialidad>,
                                  ms: seq<Medico>, hs: seq<Horario>, cs: seq<Cita>, nextId: nat)
    requires Consistente(us, es, ms, hs, cs, nextId)
    requires u.id == nextId && UsuarioPorEmail(us, u.email).None?
    ensures Consistente(us + [u], es, ms, hs, cs, nextId + 1)
  {
    var us' := us + [u];
    forall m | m in ms ensures UsuarioPorId(us', m.usuarioId).Some? {
      var i := UsuarioPorId(us, m.usuarioId).value;
      assert us'[i].id == m.usuarioId;
    }
  }

  /** Appending a doctor row with the next key, whose account and specialty
      exist, keeps the database consistent. */
  lemma AgregarMedicoConsistente(us: seq<Usuario>, es: seq<Especialidad>, ms: seq<Medico>,
                                 hs: seq<Horario>, cs: seq<Cita>, nextId: nat, m: Medico)
    requires Consistente(us, es, ms, hs, cs, nextId)
    requires m.id == nextId && UsuarioPorId(us, m.usuarioId).Some? && EspecialidadPorId(es, m.especialidadId).Some?
    ensures Consistente(us, es, ms + [m], hs, cs, nextId + 1)
  {
  }

  /** Rewriting one doctor row in place, keeping its key, for an account and
      a specialty that exist, keeps the database consistent. */
  lemma ActualizarMedicoConsistente(us: seq<Usuario>, es: seq<Especialidad>, ms: seq<Medico>,
                                    hs: seq<Horario>, cs: seq<Cita>, nextId: nat, i: nat, m: Medico)
    requires Consistente(us, es, ms, hs, cs, nextId)
    requires i < |ms| && m.id == ms[i].id
    requires UsuarioPorId(us, m.usuarioId).Some? && EspecialidadPorId(es, m.especialidadId).Some?
    ensures Consistente(us, es, ms[i := m], hs, cs, nextId)
  {
    assert ms[i] in ms;
    forall x | x in ms[i := m] ensures x == m || x in ms {
      var j :| 0 <= j < |ms[i := m]| && ms[i := m][j] == x;
      if j != i {
        assert ms[j] in ms;
      }
    }
  }

  /** Appending an appointment with the next key, for a doctor that exists,
      keeps the database consistent. */
  lemma AgregarCitaConsistente(us: seq<Usuario>, es: seq<Especialidad>, ms: seq<Medico>,
                               hs: seq<Horario>, cs: seq<Cita>, nextId: nat, c: Cita)
    requires Consistente(us, es, ms, hs, cs, nextId)
    requires c.id == nextId && MedicoPorId(ms, c.medicoId).Some?
    ensures Consistente(us, es, ms, hs, cs + [c], nextId + 1)
  {
    assert ms[MedicoPorId(ms, c.medicoId).value] in ms;
  }

  /** Appending working blocks with keys below the new counter, each for a
      doctor that exists, keeps the database consistent. */
  lemma AgregarHorariosConsistente(us: seq<Usuario>, es: seq<Especialidad>, ms: seq<Medico>,
                                   hs: seq<Horario>, cs: seq<Cita>, nextId: nat,
                                   nuevos: seq<Horario>, nextId2: nat)
    requires Consistente(us, es, ms, hs, cs, nextId)
    requires nextId <= nextId2
    requires forall i :: 0 <= i < |nuevos| ==> nuevos[i].id < nextId2 && MedicoPorId(ms, nuevos[i].medicoId).Some?
    ensures Consistente(us, es, ms, hs + nuevos, cs, nextId2)
  {
    forall h | h in hs + nuevos ensures h.id < nextId2 && h.medicoId < nextId2 {
      if h !in hs {
        var i :| 0 <= i < |nuevos| && nuevos[i] == h;
        assert ms[MedicoPorId(ms, h.medicoId).value] in ms;
      }
    }
  }
}
