/**
 * The decision policy of a cycle: moisture first, then expected rain, then
 * the peak tariff.
 */
module DecisionPolicy {
  import Forecast

  /** Soil moisture (%) at or above which no irrigation is needed. */
  const MoistureThreshold: real := 30.0
  /** The only tariff label with a meaning of its own: expensive energy. */
  const PeakTariff: string := "Pico"

  /** The two values `acao` takes. */
  datatype Action = Aguardar | Ligar

  /** The text stored for an action. */
  function ActionLabel(a: Action): string {
    match a
    case Aguardar => "AGUARDAR"
    case Ligar => "LIGAR"
  }

  /**
   * The four justifications (`motivo`).  The rain one carries the forecast
   * volume it quotes; the others are fixed texts.
   */
  datatype Reason = Preditivo(volume: real) | Economia | Execucao | Manutencao

  datatype Verdict = Verdict(acao: Action, motivo: Reason)

  /**
   * The decision block: moisture first, then expected rain, then the peak
   * tariff; irrigate only when all three allow it.
   */
  function Decide(umidade: real, clima: Forecast.Summary, tarifa: string): (v: Verdict)
    ensures umidade >= MoistureThreshold ==> v == Verdict(Aguardar, Manutencao)
    ensures umidade < MoistureThreshold && clima.vaiChover ==>
      v == Verdict(Aguardar, Preditivo(clima.volumeChuvaTotal))
    ensures umidade < MoistureThreshold && !clima.vaiChover && tarifa == PeakTariff ==>
      v == Verdict(Aguardar, Economia)
    ensures v.acao == Ligar <==> umidade < MoistureThreshold && !clima.vaiChover && tarifa != PeakTariff
    ensures v.acao == Ligar <==> v.motivo == Execucao
  {
    if umidade < MoistureThreshold then
      if clima.vaiChover then Verdict(Aguardar, Preditivo(clima.volumeChuvaTotal))
      else if tarifa == PeakTariff then Verdict(Aguardar, Economia)
      else Verdict(Ligar, Execucao)
    else Verdict(Aguardar, Manutencao)
  }

  /** Expected rain wins over the tariff: with dry soil and rain coming the tariff is irrelevant. */
  lemma RainOverridesTariff(umidade: real, clima: Forecast.Summary, t1: string, t2: string)
    requires umidade < MoistureThreshold && clima.vaiChover
    ensures Decide(umidade, clima, t1) == Decide(umidade, clima, t2)
  {
  }

  /** Moist soil wins over everything: forecast and tariff are irrelevant. */
  lemma MoistureOverridesAll(umidade: real, c1: Forecast.Summary, c2: Forecast.Summary, t1: string, t2: string)
    requires umidade >= MoistureThreshold
    ensures Decide(umidade, c1, t1) == Decide(umidade, c2, t2)
  {
  }

  /** Drier soil never turns an irrigation into a wait. */
  lemma DrierStillIrrigates(u1: real, u2: real, clima: Forecast.Summary, tarifa: string)
    requires u2 <= u1
    requires Decide(u1, clima, tarifa).acao == Ligar
    ensures Decide(u2, clima, tarifa).acao == Ligar
  {
  }
}
