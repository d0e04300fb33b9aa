/**
 * The board's pin-mux and clock-limit queries: for each I/O module, the static table of pin-mux
 * configurations (one entry per instance of the module, 0 for an instance that is not muxed
 * out) or of SDIO clock limits, with its length. Both are delivered through out-parameters; a
 * branch that does not assign the table pointer leaves the caller's value untouched.
 */
module PinMuxQuery {
  import opened KernelTypes

  /** The I/O modules of the query interface; Unknown stands for any other enum value. */
  datatype IoModule =
    | Display | Dap | Hdcp | Hdmi | I2c | I2c_Pmu | Kbd | Mio | Nand | Sdio | Spdif | Spi | Uart
    | ExternalClock | VideoInput | Crt | Tvo | Ata | Pwm | Dsi | Hsi | Twc | Ulpi | OneWire | SyncNor
    | PciExpress | Trace | BacklightPwm
    | Hsmmc | Csi | Sflash | Slink | Gpio | I2s | Usb | Vdd | Xio | Tsense
    | Unknown(value: nat)

  /** The pin-map families the tables draw their configurations from. */
  datatype PinMap =
    | UartMap | SpiMap | I2cMap | I2cPmuMap | UlpiMap | SdioMap | HdmiMap | PwmMap | DapMap | KbdMap
    | ExternalClockMap | VideoInputMap | OneWireMap | PtmMap

  /** One table entry: 0 (the instance is not used) or the named configuration NvOdm<map>PinMap_Config<n>,
      whose numeric value comes from a header that is not part of this model. */
  datatype PinConfig = Unused | Config(pinMap: PinMap, n: nat)

  /** What an out-parameter pointer holds after the call. */
  datatype PtrOut<T> = Untouched | Null | Points(table: seq<T>)

  /** The personality and RIL constants of the devkit customer-option header. */
  datatype DevkitConsts = DevkitConsts(defaultPersonality: nat, personality11: nat, personality15: nat,
                                       personalityC1: nat, rilDefault: nat)

  const UartConfigs: seq<PinConfig> := [Config(UartMap, 4), Config(UartMap, 2), Config(UartMap, 1), Config(UartMap, 2), Unused]
  const SpiConfigs: seq<PinConfig> := [Config(SpiMap, 4), Config(SpiMap, 2), Config(SpiMap, 2), Unused, Unused]
  const TwcConfigs: seq<PinConfig> := [Unused]
  const I2cConfigs: seq<PinConfig> := [Config(I2cMap, 1), Config(I2cMap, 1), Config(I2cMap, 1)]
  const I2cPmuConfigs: seq<PinConfig> := [Config(I2cPmuMap, 1)]
  const UlpiConfigs: seq<PinConfig> := [Config(UlpiMap, 1)]
  /** The first SDIO instance carries the WLAN. */
  const SdioConfigs: seq<PinConfig> := [Config(SdioMap, 1), Unused, Config(SdioMap, 2), Config(SdioMap, 2)]
  /** The S/PDIF table names an SDIO configuration. */
  const SpdifConfigs: seq<PinConfig> := [Config(SdioMap, 2)]
  const HsiConfigs: seq<PinConfig> := [Unused]
  const HdmiConfigs: seq<PinConfig> := [Config(HdmiMap, 1)]
  const PwmConfigs: seq<PinConfig> := [Config(PwmMap, 1)]
  const AtaConfigs: seq<PinConfig> := [Unused]
  const NandConfigs: seq<PinConfig> := [Unused]
  /** A placeholder DAP configuration that keeps the display driver's checks satisfied. */
  const DsiConfigs: seq<PinConfig> := [Config(DapMap, 1)]
  const DapConfigs: seq<PinConfig> := [Config(DapMap, 1), Config(DapMap, 1), Config(DapMap, 1), Config(DapMap, 1), Unused]
  const KbdConfigs: seq<PinConfig> := [Config(KbdMap, 3)]
  const HdcpConfigs: seq<PinConfig> := [Unused]
  const SyncNorConfigs: seq<PinConfig> := [Unused]
  const MioConfigs: seq<PinConfig> := [Unused]
  const ExternalClockConfigs: seq<PinConfig> := [Config(ExternalClockMap, 2), Config(ExternalClockMap, 2), Config(ExternalClockMap, 1)]
  const VideoInputConfigs: seq<PinConfig> := [Config(VideoInputMap, 2)]
  const DisplayConfigs: seq<PinConfig> := [Unused, Unused]
  const BacklightPwmConfigs: seq<PinConfig> := [Unused, Unused]
  const CrtConfigs: seq<PinConfig> := [Unused, Unused]
  const TvoConfigs: seq<PinConfig> := [Unused]
  const OneWireConfigs: seq<PinConfig> := [Config(OneWireMap, 1)]
  /** Unused: PCI Express needs SDIO3's configuration set to 0. */
  const PciExpressConfigs: seq<PinConfig> := [Unused]
  const PtmConfigs: seq<PinConfig> := [Config(PtmMap, 1)]

  /** The SDIO clock limits in kHz, one per SDIO instance; the first is the WLAN's. */
  const SdioClockLimits: seq<nat> := [50000, 32000, 50000, 50000]

  /** A personality of 0 (no key list, or no personality in the customer option) means the default. */
  function EffectivePersonality(personality: nat, k: DevkitConsts): (r: nat)
    ensures personality != 0 ==> r == personality
    ensures personality == 0 ==> r == k.defaultPersonality
  {
    if personality == 0 then k.defaultPersonality else personality
  }

  /** The personalities with the trace port muxed out. */
  predicate TracePersonality(p: nat, k: DevkitConsts)
  {
    p == k.personality11 || p == k.personality15 || p == k.personalityC1
  }

  /** The modules that have no pin-mux table on this board: the count is 0 and the pointer is not
      assigned. */
  predicate NoTable(m: IoModule)
  {
    m in {Hsmmc, Csi, Sflash, Slink, Gpio, I2s, Usb, Vdd, Xio, Tsense} || m.Unknown?
  }

  /** The static table of a module with one, whatever the personality. */
  function StaticTable(m: IoModule): Option<seq<PinConfig>>
  {
    match m
    case Display => Some(DisplayConfigs)
    case Dap => Some(DapConfigs)
    case Hdcp => Some(HdcpConfigs)
    case Hdmi => Some(HdmiConfigs)
    case I2c => Some(I2cConfigs)
    case I2c_Pmu => Some(I2cPmuConfigs)
    case Kbd => Some(KbdConfigs)
    case Mio => Some(MioConfigs)
    case Nand => Some(NandConfigs)
    case Sdio => Some(SdioConfigs)
    case Spdif => Some(SpdifConfigs)
    case Spi => Some(SpiConfigs)
    case Uart => Some(UartConfigs)
    case ExternalClock => Some(ExternalClockConfigs)
    case VideoInput => Some(VideoInputConfigs)
    case Crt => Some(CrtConfigs)
    case Tvo => Some(TvoConfigs)
    case Ata => Some(AtaConfigs)
    case Pwm => Some(PwmConfigs)
    case Dsi => Some(DsiConfigs)
    case Hsi => Some(HsiConfigs)
    case Twc => Some(TwcConfigs)
    case Ulpi => Some(UlpiConfigs)
    case OneWire => Some(OneWireConfigs)
    case SyncNor => Some(SyncNorConfigs)
    case PciExpress => Some(PciExpressConfigs)
    case BacklightPwm => Some(BacklightPwmConfigs)
    case _ => None
  }

  /** NvOdmQueryPinMux: the table pointer and the count for m, given the personality and RIL fields
      of the customer option (0 when the key list cannot be opened). The RIL value is defaulted in
      the same way but no branch reads it. */
  function QueryPinMux(m: IoModule, personality: nat, ril: nat, k: DevkitConsts): (r: (PtrOut<PinConfig>, nat))
    ensures !r.0.Null?
    ensures r.0.Points? ==> r.1 == |r.0.table| && r.1 > 0
    ensures r.0.Untouched? ==> r.1 == 0
  {
    var p := EffectivePersonality(personality, k);
    if m == Trace then
      if TracePersonality(p, k) then (Points(PtmConfigs), |PtmConfigs|) else (Untouched, 0)
    else match StaticTable(m)
      case Some(t) => (Points(t), |t|)
      case None => (Untouched, 0)
  }

  /** Every module outside the no-table list gets its own table with the table's length, whatever
      the personality; for example Uart 5, Spi 5, I2c 3 and Sdio 4. */
  lemma StaticTablesReturnedWhole(m: IoModule, personality: nat, ril: nat, k: DevkitConsts)
    requires m != Trace && !NoTable(m)
    ensures StaticTable(m).Some?
    ensures QueryPinMux(m, personality, ril, k) == (Points(StaticTable(m).value), |StaticTable(m).value|)
    ensures QueryPinMux(Uart, personality, ril, k).1 == 5 && QueryPinMux(Spi, personality, ril, k).1 == 5
    ensures QueryPinMux(I2c, personality, ril, k).1 == 3 && QueryPinMux(Sdio, personality, ril, k).1 == 4
  {
  }

  /** The trace port is muxed out, with the one PTM configuration, exactly for personalities 11, 15
      and C1; otherwise the count is 0 and the pointer untouched. */
  lemma TraceOnlyForTracePersonalities(personality: nat, ril: nat, k: DevkitConsts)
    ensures QueryPinMux(Trace, personality, ril, k).1 == 1
            <==> TracePersonality(EffectivePersonality(personality, k), k)
    ensures QueryPinMux(Trace, personality, ril, k).1 == 1
            ==> QueryPinMux(Trace, personality, ril, k).0 == Points([Config(PtmMap, 1)])
    ensures QueryPinMux(Trace, personality, ril, k).1 != 1
            ==> QueryPinMux(Trace, personality, ril, k) == (Untouched, 0)
  {
  }

  /** The no-table modules, known or not, give count 0 and leave the pointer untouched; no other
      module does. */
  lemma NoTableModulesUntouched(m: IoModule, personality: nat, ril: nat, k: DevkitConsts)
    ensures NoTable(m) ==> QueryPinMux(m, personality, ril, k) == (Untouched, 0)
    ensures !NoTable(m) && m != Trace ==> QueryPinMux(m, personality, ril, k).0.Points?
  {
  }

  /** A missing personality behaves exactly as the default one, and the RIL value never changes the
      answer. */
  lemma DefaultsSubstituted(m: IoModule, personality: nat, ril: nat, ril': nat, k: DevkitConsts)
    ensures QueryPinMux(m, 0, ril, k) == QueryPinMux(m, k.defaultPersonality, ril', k)
    ensures QueryPinMux(m, personality, ril, k) == QueryPinMux(m, personality, ril', k)
  {
  }

  /** NvOdmQueryClockLimits: only SDIO has limits; HSMMC gives count 0 with the pointer untouched;
      every other module gets NULL and 0. */
  function QueryClockLimits(m: IoModule): (r: (PtrOut<nat>, nat))
    ensures r.1 > 0 <==> m == Sdio
    ensures r.0.Points? ==> r.1 == |r.0.table|
    ensures r.0.Untouched? <==> m == Hsmmc
  {
    match m
    case Hsmmc => (Untouched, 0)
    case Sdio => (Points(SdioClockLimits), |SdioClockLimits|)
    case _ => (Null, 0)
  }

  /** There is one clock limit per SDIO pin-mux instance, and the WLAN instance is limited to
      50 MHz. */
  lemma SdioLimitPerInstance(personality: nat, ril: nat, k: DevkitConsts)
    ensures QueryClockLimits(Sdio).1 == QueryPinMux(Sdio, personality, ril, k).1
    ensures QueryClockLimits(Sdio).0.table[0] == 50000 && QueryPinMux(Sdio, personality, ril, k).0.table[0] == Config(SdioMap, 1)
  {
  }
}
