/** Calendar values of the appointment system, at minute precision.
    A wall-clock time (LocalTime) is a minute of the day, a date (LocalDate)
    is a day number counted from 1970-01-01, and a date-time (LocalDateTime)
    is a minute counted from 1970-01-01T00:00. */
module Tiempo {

  const MinutosPorDia: int := 1440

  /** Length of an appointment and step of the slot grid, in minutes. */
  const DuracionCita: int := 30

  type HoraDelDia = m: int | 0 <= m < MinutosPorDia

  /** Day number counted from 1970-01-01 (LocalDate.toEpochDay). */
  type Fecha = int

  /** Minutes counted from 1970-01-01T00:00. */
  type Instante = int

  /** LocalTime.of(h, m). */
  function Hora(h: int, m: int): HoraDelDia
    requires 0 <= h < 24 && 0 <= m < 60
  {
    h * 60 + m
  }

  /** LocalDateTime.toLocalDate(). */
  function FechaDe(t: Instante): Fecha {
    t / MinutosPorDia
  }

  /** LocalDateTime.toLocalTime(). */
  function HoraDe(t: Instante): HoraDelDia {
    t % MinutosPorDia
  }

  /** LocalDate.atTime(h). */
  function En(f: Fecha, h: HoraDelDia): (t: Instante)
    ensures FechaDe(t) == f && HoraDe(t) == h
  {
    f * MinutosPorDia + h
  }

  /** LocalTime.plusMinutes(n), which wraps around midnight. */
  function MasMinutos(h: HoraDelDia, n: nat): (r: HoraDelDia)
    ensures h + n < MinutosPorDia ==> r == h + n
    ensures MinutosPorDia <= h + n < 2 * MinutosPorDia ==> r == h + n - MinutosPorDia
  {
    (h + n) % MinutosPorDia
  }

  datatype DiaSemana = Lunes | Martes | Miercoles | Jueves | Viernes | Sabado | Domingo

  /** The week in ISO order, Monday first. */
  const Semana: seq<DiaSemana> := [Lunes, Martes, Miercoles, Jueves, Viernes, Sabado, Domingo]

  /** The working days of the base schedule, in the order the doctor service saves them. */
  const DiasLaborables: seq<DiaSemana> := [Lunes, Martes, Miercoles, Jueves, Viernes]

  /** The weekday of a date; day 0 (1970-01-01) was a Thursday. */
  function DiaSemanaDe(f: Fecha): DiaSemana {
    Semana[(f + 3) % 7]
  }
}
