/**
 * `generate_recommendations` (`utils.py`, repeated in `db_operations.py` and `project.py`): the
 * advice shown under a sensor's statistics, decided by two strict thresholds on the averages.
 */
module Advice {

  /** Above this average temperature the room should be cooled. */
  const TempThreshold: real := 25.0

  /** Above this average humidity the room should be dehumidified. */
  const HumidityThreshold: real := 60.0

  function CoolingAdvice(sensorId: string): string
  {
    "Recommandation: Refroidir la " + sensorId + " avec la climatisation."
  }

  function DehumidifierAdvice(sensorId: string): string
  {
    "Recommandation: Utiliser un déshumidificateur dans la " + sensorId + "."
  }

  const NormalAdvice: string := "Recommandation: Les conditions sont normales."

  /** The three kinds of advice never coincide, whatever the sensor is called: they differ after the common prefix. */
  lemma AdviceDistinct(a: string, b: string)
    ensures CoolingAdvice(a) != DehumidifierAdvice(b)
    ensures CoolingAdvice(a) != NormalAdvice
    ensures DehumidifierAdvice(b) != NormalAdvice
  {
    assert CoolingAdvice(a)[16] == 'R';
    assert DehumidifierAdvice(b)[16] == 'U';
    assert NormalAdvice[16] == 'L';
  }

  /** The advice for the given averages: cooling first, then dehumidifying, or else the all-clear. */
  function Recommendations(sensorId: string, avgTemp: real, avgHumidity: real): seq<string>
  {
    var advice := (if avgTemp > TempThreshold then [CoolingAdvice(sensorId)] else [])
      + (if avgHumidity > HumidityThreshold then [DehumidifierAdvice(sensorId)] else []);
    if advice == [] then [NormalAdvice] else advice
  }

  /** `generate_recommendations`: the list grown by one conditional append per rule. */
  method GenerateRecommendations(sensorId: string, avgTemp: real, avgHumidity: real) returns (recommendations: seq<string>)
    ensures recommendations == Recommendations(sensorId, avgTemp, avgHumidity)
  {
    recommendations := [];
    if avgTemp > TempThreshold {
      recommendations := recommendations + [CoolingAdvice(sensorId)];
    }
    if avgHumidity > HumidityThreshold {
      recommendations := recommendations + [DehumidifierAdvice(sensorId)];
    }
    if |recommendations| == 0 {
      recommendations := recommendations + [NormalAdvice];
    }
  }

  /**
   * One or two pieces of advice, two exactly when both thresholds are exceeded; cooling comes
   * first and dehumidifying last; each appears exactly when its strict threshold is exceeded;
   * the all-clear appears only alone and exactly when neither is.
   */
  lemma RecommendationsShape(sensorId: string, avgTemp: real, avgHumidity: real)
    ensures var r := Recommendations(sensorId, avgTemp, avgHumidity);
      && 1 <= |r| <= 2
      && (|r| == 2 <==> avgTemp > 25.0 && avgHumidity > 60.0)
      && (avgTemp > 25.0 ==> r[0] == CoolingAdvice(sensorId))
      && (avgHumidity > 60.0 ==> r[|r| - 1] == DehumidifierAdvice(sensorId))
      && (CoolingAdvice(sensorId) in r <==> avgTemp > 25.0)
      && (DehumidifierAdvice(sensorId) in r <==> avgHumidity > 60.0)
      && (NormalAdvice in r <==> avgTemp <= 25.0 && avgHumidity <= 60.0)
      && (NormalAdvice in r ==> r == [NormalAdvice])
  {
    AdviceDistinct(sensorId, sensorId);
  }
}
