/** Managing the weekly working blocks of a doctor: creating one, creating a
    batch all or nothing, listing them, and deleting one on behalf of its
    owner. */
module HorarioService {
  import opened Tiempo
  import opened Secuencias
  import opened Entidades
  import opened Repositorios

  /** The request body of a block: weekday, start and end. */
  datatype DatosHorario = DatosHorario(dia: DiaSemana, inicio: HoraDelDia, fin: HoraDelDia)

  /** The guard `horaFin.isBefore(horaInicio) || horaFin.equals(horaInicio)`. */
  predicate FinNoPosterior(d: DatosHorario) {
    d.fin < d.inicio || d.fin == d.inicio
  }

  /** The block a request becomes once saved under key id. */
  function Bloque(id: nat, medicoId: nat, d: DatosHorario): Horario {
    Horario(id, medicoId, d.dia, d.inicio, d.fin)
  }

  // ---------------------------------------------------------------------
  // crearHorario
  // ---------------------------------------------------------------------

  /** The outcome of crearHorario: the times are checked before the doctor
      is looked up. */
  function CreacionHorario(ms: seq<Medico>, medicoId: nat, datos: DatosHorario, nuevoId: nat): (r: Result<Horario>)
    ensures FinNoPosterior(datos) <==> r == Err(HoraFinNoPosterior)
    ensures r == Err(MedicoNoEncontrado) <==> !FinNoPosterior(datos) && forall j :: 0 <= j < |ms| ==> ms[j].id != medicoId
    ensures r.Ok? ==> r.value.id == nuevoId && r.value.medicoId == medicoId && r.value.dia == datos.dia
                      && r.value.inicio == datos.inicio && r.value.fin == datos.fin && r.value.inicio < r.value.fin
  {
    if FinNoPosterior(datos) then Err(HoraFinNoPosterior)
    else if MedicoPorId(ms, medicoId).None? then Err(MedicoNoEncontrado)
    else Ok(Bloque(nuevoId, medicoId, datos))
  }

  /** crearHorario: saves the block under the next generated key. */
  method CrearHorario(db: Store, medicoId: nat, datos: DatosHorario) returns (r: Result<Horario>)
    modifies db`horarios, db`nextId
    ensures r == CreacionHorario(db.medicos, medicoId, datos, old(db.nextId))
    ensures r.Ok? ==> db.horarios == old(db.horarios) + [r.value] && db.nextId == old(db.nextId) + 1
    ensures r.Err? ==> db.horarios == old(db.horarios) && db.nextId == old(db.nextId)
  {
    if datos.fin < datos.inicio || datos.fin == datos.inicio {
      return Err(HoraFinNoPosterior);
    }
    var im := MedicoPorId(db.medicos, medicoId);
    if im.None? {
      return Err(MedicoNoEncontrado);
    }
    var nuevo := Bloque(db.nextId, medicoId, datos);
    db.horarios := db.horarios + [nuevo];
    db.nextId := db.nextId + 1;
    return Ok(nuevo);
  }

  // ---------------------------------------------------------------------
  // obtenerHorariosPorMedico
  // ---------------------------------------------------------------------

  /** obtenerHorariosPorMedico: an unknown doctor fails; otherwise the
      doctor's blocks, in table order. */
  function ObtenerHorariosPorMedico(ms: seq<Medico>, hs: seq<Horario>, medicoId: nat): (r: Result<seq<Horario>>)
    ensures r.Err? <==> forall j :: 0 <= j < |ms| ==> ms[j].id != medicoId
    ensures r.Err? ==> r.error == MedicoNoEncontrado
    ensures r.Ok? ==> (forall i :: 0 <= i < |r.value| ==> r.value[i] in hs && r.value[i].medicoId == medicoId)
                      && (forall i :: 0 <= i < |hs| && hs[i].medicoId == medicoId ==> hs[i] in r.value)
  {
    if MedicoPorId(ms, medicoId).None? then Err(MedicoNoEncontrado)
    else Ok(HorariosDeMedico(hs, medicoId))
  }

  /** A block created for a doctor is listed for that doctor, after the
      blocks already there; the lists of the other doctors do not change. */
  lemma CrearYListar(ms: seq<Medico>, hs: seq<Horario>, medicoId: nat, datos: DatosHorario, nuevoId: nat,
                     otro: nat)
    requires CreacionHorario(ms, medicoId, datos, nuevoId).Ok?
    ensures var h := CreacionHorario(ms, medicoId, datos, nuevoId).value;
            && ObtenerHorariosPorMedico(ms, hs + [h], medicoId)
               == Ok(ObtenerHorariosPorMedico(ms, hs, medicoId).value + [h])
            && (otro != medicoId ==> ObtenerHorariosPorMedico(ms, hs + [h], otro) == ObtenerHorariosPorMedico(ms, hs, otro))
  {
    var h := CreacionHorario(ms, medicoId, datos, nuevoId).value;
    FilterConcat(hs, [h], HorarioDelMedico(medicoId));
    FilterTodos([h], HorarioDelMedico(medicoId));
    if otro != medicoId {
      FilterConcat(hs, [h], HorarioDelMedico(otro));
      FilterVacio([h], HorarioDelMedico(otro));
      assert HorariosDeMedico(hs, otro) + [] == HorariosDeMedico(hs, otro);
    }
  }

  /** A created block keeps the database consistent: it takes the next key
      and belongs to an existing doctor. */
  lemma CreacionHorarioConservaConsistencia(us: seq<Usuario>, es: seq<Especialidad>, ms: seq<Medico>,
                                            hs: seq<Horario>, cs: seq<Cita>, nextId: nat,
                                            medicoId: nat, datos: DatosHorario)
    requires Consistente(us, es, ms, hs, cs, nextId)
    requires CreacionHorario(ms, medicoId, datos, nextId).Ok?
    ensures Consistente(us, es, ms, hs + [CreacionHorario(ms, medicoId, datos, nextId).value], cs, nextId + 1)
  {
    var h := CreacionHorario(ms, medicoId, datos, nextId).value;
    assert h.id == nextId && h.medicoId == medicoId;
    assert ms[MedicoPorId(ms, medicoId).value] in ms;
    AgregarHorariosConsistente(us, es, ms, hs, cs, nextId, [h], nextId + 1);
  }

  // ---------------------------------------------------------------------
  // eliminarHorario
  // ---------------------------------------------------------------------

  /** The outcome of eliminarHorario on the block table: the block must
      exist and belong to the doctor named in the request; then the row with
      that key is deleted. */
  function EliminacionHorario(hs: seq<Horario>, medicoId: nat, horarioId: nat): (r: Result<seq<Horario>>)
    ensures r == Err(HorarioNoEncontrado) <==> forall j :: 0 <= j < |hs| ==> hs[j].id != horarioId
    ensures r == Err(AccesoDenegado) <==> HorarioPorId(hs, horarioId).Some? && hs[HorarioPorId(hs, horarioId).value].medicoId != medicoId
    ensures r.Ok? ==> forall i :: 0 <= i < |r.value| ==> r.value[i] in hs && r.value[i].id != horarioId
    ensures r.Ok? ==> forall i :: 0 <= i < |hs| && hs[i].id != horarioId ==> hs[i] in r.value
  {
    match HorarioPorId(hs, horarioId)
    case None => Err(HorarioNoEncontrado)
    case Some(k) =>
      if hs[k].medicoId != medicoId then Err(AccesoDenegado)
      else Ok(Filter(hs, HorarioSinId(horarioId)))
  }

  /** After a deletion, every doctor's list is the list it had, without the
      deleted key and with the remaining blocks in their order. */
  lemma {:induction false} EliminarDeLaLista(hs: seq<Horario>, horarioId: nat, otro: nat)
    ensures HorariosDeMedico(Filter(hs, HorarioSinId(horarioId)), otro)
            == Filter(HorariosDeMedico(hs, otro), HorarioSinId(horarioId))
  {
    if hs != [] {
      EliminarDeLaLista(hs[1..], horarioId, otro);
      var h := hs[0];
      var sinId, delMedico := HorarioSinId(horarioId), HorarioDelMedico(otro);
      var quedan, suyos := Filter(hs[1..], sinId), Filter(hs[1..], delMedico);
      if sinId(h) {
        assert Filter(hs, sinId) == [h] + quedan;
        assert ([h] + quedan)[1..] == quedan;
      } else {
        assert Filter(hs, sinId) == quedan;
      }
      if delMedico(h) {
        assert Filter(hs, delMedico) == [h] + suyos;
        assert ([h] + suyos)[1..] == suyos;
      } else {
        assert Filter(hs, delMedico) == suyos;
      }
    }
  }

  /** A deletion keeps the database consistent: it only removes rows. */
  lemma EliminacionHorarioConservaConsistencia(us: seq<Usuario>, es: seq<Especialidad>, ms: seq<Medico>,
                                               hs: seq<Horario>, cs: seq<Cita>, nextId: nat,
                                               medicoId: nat, horarioId: nat)
    requires Consistente(us, es, ms, hs, cs, nextId)
    requires EliminacionHorario(hs, medicoId, horarioId).Ok?
    ensures Consistente(us, es, ms, EliminacionHorario(hs, medicoId, horarioId).value, cs, nextId)
  {
    var r := EliminacionHorario(hs, medicoId, horarioId).value;
    forall h | h in r ensures h.id < nextId && h.medicoId < nextId {
      var i :| 0 <= i < |r| && r[i] == h;
    }
  }

  /** eliminarHorario, in place on the block table. */
  method EliminarHorario(db: Store, medicoId: nat, horarioId: nat) returns (r: Result<()>)
    modifies db`horarios
    ensures var e := EliminacionHorario(old(db.horarios), medicoId, horarioId);
            && (r.Ok? <==> e.Ok?)
            && (r.Err? ==> r.error == e.error && db.horarios == old(db.horarios))
            && (r.Ok? ==> db.horarios == e.value)
  {
    var k := HorarioPorId(db.horarios, horarioId);
    if k.None? {
      return Err(HorarioNoEncontrado);
    }
    if db.horarios[k.value].medicoId != medicoId {
      return Err(AccesoDenegado);
    }
    db.horarios := Filter(db.horarios, HorarioSinId(horarioId));
    return Ok(());
  }

  // ---------------------------------------------------------------------
  // crearHorariosEnLote
  // ---------------------------------------------------------------------

  /** The blocks a batch becomes, saved in order under consecutive keys from primerId. */
  function Bloques(medicoId: nat, lote: seq<DatosHorario>, primerId: nat): (r: seq<Horario>)
    ensures |r| == |lote|
    ensures forall i :: 0 <= i < |lote| ==> r[i] == Bloque(primerId + i, medicoId, lote[i])
  {
    if lote == [] then []
    else [Bloque(primerId, medicoId, lote[0])] + Bloques(medicoId, lote[1..], primerId + 1)
  }

  /** The outcome of crearHorariosEnLote: the doctor is looked up first,
      then the first entry whose end is not after its start rejects the
      whole batch; otherwise every entry becomes a block. */
  function CreacionEnLote(ms: seq<Medico>, medicoId: nat, lote: seq<DatosHorario>, primerId: nat): Result<seq<Horario>>
  {
    if MedicoPorId(ms, medicoId).None? then Err(MedicoNoEncontrado)
    else match Find(lote, FinNoPosterior)
      case Some(i) => Err(HoraFinNoPosteriorEn(lote[i].dia))
      case None => Ok(Bloques(medicoId, lote, primerId))
  }

  /** The batch is all or nothing: it succeeds exactly when the doctor
      exists and every entry ends after it starts, and then it yields one
      block per entry, in the input order, each carrying its entry's weekday
      and times; a rejected batch names the weekday of its first bad entry. */
  lemma CreacionEnLoteSii(ms: seq<Medico>, medicoId: nat, lote: seq<DatosHorario>, primerId: nat)
    ensures var r := CreacionEnLote(ms, medicoId, lote, primerId);
            && (r == Err(MedicoNoEncontrado) <==> forall j :: 0 <= j < |ms| ==> ms[j].id != medicoId)
            && (r.Ok? <==> MedicoPorId(ms, medicoId).Some? && forall i :: 0 <= i < |lote| ==> lote[i].inicio < lote[i].fin)
            && (r.Err? && r.error.HoraFinNoPosteriorEn? ==>
                  exists i :: 0 <= i < |lote| && lote[i].dia == r.error.dia && lote[i].fin <= lote[i].inicio
                              && forall j :: 0 <= j < i ==> lote[j].inicio < lote[j].fin)
            && (r.Ok? ==> |r.value| == |lote|
                          && forall i :: 0 <= i < |lote| ==>
                               && r.value[i].id == primerId + i && r.value[i].medicoId == medicoId
                               && r.value[i].dia == lote[i].dia && r.value[i].inicio == lote[i].inicio
                               && r.value[i].fin == lote[i].fin)
  {
    var r := CreacionEnLote(ms, medicoId, lote, primerId);
    if MedicoPorId(ms, medicoId).Some? {
      var f := Find(lote, FinNoPosterior);
      if f.Some? {
        assert lote[f.value].dia == r.error.dia;
      }
    }
  }

  /** A batch of one entry succeeds exactly when crearHorario on that entry
      does, with the same block. The two differ only in which error a
      request with both a bad time range and an unknown doctor reports. */
  lemma LoteDeUno(ms: seq<Medico>, medicoId: nat, datos: DatosHorario, nuevoId: nat)
    ensures var lote := CreacionEnLote(ms, medicoId, [datos], nuevoId);
            var uno := CreacionHorario(ms, medicoId, datos, nuevoId);
            && (lote.Ok? <==> uno.Ok?)
            && (lote.Ok? ==> lote.value == [uno.value])
            && (FinNoPosterior(datos) && MedicoPorId(ms, medicoId).None? ==>
                  lote == Err(MedicoNoEncontrado) && uno == Err(HoraFinNoPosterior))
  {
    CreacionEnLoteSii(ms, medicoId, [datos], nuevoId);
  }

  /** The validating loop of crearHorariosEnLote: turns each entry into a
      block, stopping at the first entry whose end is not after its start. */
  method ConstruirLote(medicoId: nat, lote: seq<DatosHorario>, primerId: nat) returns (r: Result<seq<Horario>>)
    ensures r.Err? <==> Find(lote, FinNoPosterior).Some?
    ensures r.Err? ==> r.error == HoraFinNoPosteriorEn(lote[Find(lote, FinNoPosterior).value].dia)
    ensures r.Ok? ==> r.value == Bloques(medicoId, lote, primerId)
  {
    var nuevos: seq<Horario> := [];
    for i := 0 to |lote|
      invariant |nuevos| == i
      invariant forall j :: 0 <= j < i ==> nuevos[j] == Bloque(primerId + j, medicoId, lote[j])
      invariant forall j :: 0 <= j < i ==> !FinNoPosterior(lote[j])
    {
      var d := lote[i];
      if d.fin < d.inicio || d.fin == d.inicio {
        assert FinNoPosterior(lote[i]);
        return Err(HoraFinNoPosteriorEn(d.dia));
      }
      nuevos := nuevos + [Bloque(primerId + i, medicoId, d)];
    }
    return Ok(nuevos);
  }

  /** crearHorariosEnLote: looks the doctor up, builds the batch, and saves
      it with saveAll only when every entry passed. */
  method CrearHorariosEnLote(db: Store, medicoId: nat, lote: seq<DatosHorario>) returns (r: Result<seq<Horario>>)
    modifies db`horarios, db`nextId
    ensures r == CreacionEnLote(db.medicos, medicoId, lote, old(db.nextId))
    ensures r.Ok? ==> db.horarios == old(db.horarios) + r.value && db.nextId == old(db.nextId) + |lote|
    ensures r.Err? ==> db.horarios == old(db.horarios) && db.nextId == old(db.nextId)
  {
    var im := MedicoPorId(db.medicos, medicoId);
    if im.None? {
      return Err(MedicoNoEncontrado);
    }
    r := ConstruirLote(medicoId, lote, db.nextId);
    if r.Ok? {
      db.horarios := db.horarios + r.value;
      db.nextId := db.nextId + |lote|;
    }
  }

  /** A saved batch keeps the database consistent: its keys are the next
      ones and its blocks belong to an existing doctor. */
  lemma CreacionEnLoteConservaConsistencia(us: seq<Usuario>, es: seq<Especialidad>, ms: seq<Medico>,
                                           hs: seq<Horario>, cs: seq<Cita>, nextId: nat,
                                           medicoId: nat, lote: seq<DatosHorario>)
    requires Consistente(us, es, ms, hs, cs, nextId)
    requires CreacionEnLote(ms, medicoId, lote, nextId).Ok?
    ensures Consistente(us, es, ms, hs + CreacionEnLote(ms, medicoId, lote, nextId).value, cs, nextId + |lote|)
  {
    CreacionEnLoteSii(ms, medicoId, lote, nextId);
    AgregarHorariosConsistente(us, es, ms, hs, cs, nextId, CreacionEnLote(ms, medicoId, lote, nextId).value,
                               nextId + |lote|);
  }

  /** After a successful batch, the doctor's list is the old list followed
      by the whole batch, in input order. */
  lemma LoteVisibleParaElMedico(ms: seq<Medico>, hs: seq<Horario>, medicoId: nat, lote: seq<DatosHorario>, primerId: nat)
    requires CreacionEnLote(ms, medicoId, lote, primerId).Ok?
    ensures var nuevos := CreacionEnLote(ms, medicoId, lote, primerId).value;
            ObtenerHorariosPorMedico(ms, hs + nuevos, medicoId)
            == Ok(ObtenerHorariosPorMedico(ms, hs, medicoId).value + nuevos)
  {
    var nuevos := CreacionEnLote(ms, medicoId, lote, primerId).value;
    FilterConcat(hs, nuevos, HorarioDelMedico(medicoId));
    FilterTodos(nuevos, HorarioDelMedico(medicoId));
  }
}
